// The tracing engine of Tracer.cpp: nearest-intersection search, shadow
// test, local shading, the depth-bounded recursive tracer and the frame
// driver. The functions below are the specification; the Tracer class at
// the end holds the configuration fields and runs the source's loops,
// each proved equal to its specification function.

module Tracing {
  import opened Math3D
  import opened Scene
  import opened FrameBuffers

  /** The five configuration values of a Tracer, read-only while tracing. */
  datatype TracerConfig = TracerConfig(
    shadowColor: Color,
    backgroundColor: Color,
    shadowBias: real,
    reflectionBias: real,
    maxNumReflections: nat)

  // ---------------------------------------------------------------------
  // Nearest intersection (Tracer.cpp:101-118)

  /** The scan's running state: the closest distance so far and its hit record. */
  datatype ScanState = ScanState(tClosest: Dist, closest: Intersection)

  /** The scan over the first `k` objects, in index order, keeping a hit only when it is strictly closer. */
  function NearestScan(objects: seq<SceneObject>, ray: Ray, k: nat): ScanState
    requires k <= |objects|
  {
    if k == 0 then ScanState(Infinity, NoIntersection)
    else
      var s := NearestScan(objects, ray, k - 1);
      var h := Report(objects, k - 1, ray);
      if h.Some? && Less(h.value.t, s.tClosest) then ScanState(h.value.t, h.value) else s
  }

  /** Among the first `k` objects, no reported hit has a distance below `Math::INF`. */
  ghost predicate NoFiniteHit(objects: seq<SceneObject>, ray: Ray, k: nat)
    requires k <= |objects|
  {
    forall i :: 0 <= i < k && Report(objects, i, ray).Some? ==> Report(objects, i, ray).value.t == Infinity
  }

  /**
   * Object `j` is the first of the first `k` objects whose hit has the
   * smallest distance: its distance is below `Math::INF`, strictly below
   * every earlier reported hit and not above any later one.
   */
  ghost predicate FirstNearest(objects: seq<SceneObject>, ray: Ray, k: nat, j: nat)
    requires k <= |objects|
  {
    && j < k
    && Report(objects, j, ray).Some?
    && Less(Report(objects, j, ray).value.t, Infinity)
    && (forall i :: 0 <= i < j && Report(objects, i, ray).Some? ==>
          Less(Report(objects, j, ray).value.t, Report(objects, i, ray).value.t))
    && (forall i :: j < i < k && Report(objects, i, ray).Some? ==>
          !Less(Report(objects, i, ray).value.t, Report(objects, j, ray).value.t))
  }

  /** The scan keeps either its initial state, when no finite hit was seen, or the first nearest hit. */
  lemma {:induction false} NearestScanKeepsFirstNearest(objects: seq<SceneObject>, ray: Ray, k: nat)
    requires k <= |objects|
    ensures var s := NearestScan(objects, ray, k);
      || (s == ScanState(Infinity, NoIntersection) && NoFiniteHit(objects, ray, k))
      || (exists j :: FirstNearest(objects, ray, k, j) && s == ScanState(Report(objects, j, ray).value.t, Report(objects, j, ray).value))
  {
    if k > 0 {
      NearestScanKeepsFirstNearest(objects, ray, k - 1);
      var s := NearestScan(objects, ray, k - 1);
      var h := Report(objects, k - 1, ray);
      if h.Some? && Less(h.value.t, s.tClosest) {
        assert Less(h.value.t, Infinity);
        if s.tClosest == Infinity {
          assert FirstNearest(objects, ray, k, k - 1);
        } else {
          var j :| FirstNearest(objects, ray, k - 1, j) && s == ScanState(Report(objects, j, ray).value.t, Report(objects, j, ray).value);
          forall i | 0 <= i < k - 1 && Report(objects, i, ray).Some?
            ensures Less(h.value.t, Report(objects, i, ray).value.t)
          {
            if i == j {
            } else if i < j {
              LessTransitive(h.value.t, s.tClosest, Report(objects, i, ray).value.t);
            } else {
              LessThenNotLess(h.value.t, s.tClosest, Report(objects, i, ray).value.t);
            }
          }
          assert FirstNearest(objects, ray, k, k - 1);
        }
      } else if s.tClosest != Infinity {
        var j :| FirstNearest(objects, ray, k - 1, j) && s == ScanState(Report(objects, j, ray).value.t, Report(objects, j, ray).value);
        assert FirstNearest(objects, ray, k, j);
      }
    }
  }

  lemma LessTransitive(a: Dist, b: Dist, c: Dist)
    requires Less(a, b) && Less(b, c)
    ensures Less(a, c)
  {
  }

  lemma LessThenNotLess(a: Dist, b: Dist, c: Dist)
    requires Less(a, b) && !Less(c, b)
    ensures Less(a, c)
  {
  }

  /**
   * `findNearestIntersection`: the hit the scan keeps, unless the kept
   * record has a null object reference, which means no hit.
   */
  function FindNearest(objects: seq<SceneObject>, ray: Ray): (r: Option<Intersection>)
    ensures r.Some? ==> r.value.objectRef.Some?
    ensures r.Some? ==> exists j :: FirstNearest(objects, ray, |objects|, j) && Report(objects, j, ray) == r
  {
    NearestScanKeepsFirstNearest(objects, ray, |objects|);
    var s := NearestScan(objects, ray, |objects|);
    if s.closest.objectRef.None? then None else Some(s.closest)
  }

  /** With every hit naming its own object, a hit is found exactly when some object reports a distance below `Math::INF`. */
  lemma NearestFoundIff(objects: seq<SceneObject>, ray: Ray)
    requires ValidObjects(objects)
    ensures FindNearest(objects, ray).Some? <==> !NoFiniteHit(objects, ray, |objects|)
  {
    NearestScanKeepsFirstNearest(objects, ray, |objects|);
    if !NoFiniteHit(objects, ray, |objects|) {
      var i :| 0 <= i < |objects| && Report(objects, i, ray).Some? && Report(objects, i, ray).value.t != Infinity;
      var s := NearestScan(objects, ray, |objects|);
      var j: nat :| FirstNearest(objects, ray, |objects|, j) && s == ScanState(Report(objects, j, ray).value.t, Report(objects, j, ray).value);
      assert s.closest.objectRef == Some(j);
    }
  }

  /** The found hit's distance is not above any reported hit's distance, and it names an object of the scene. */
  lemma NearestIsMinimal(objects: seq<SceneObject>, ray: Ray)
    ensures var r := FindNearest(objects, ray);
      r.Some? ==> forall i :: 0 <= i < |objects| && Report(objects, i, ray).Some? ==> !Less(Report(objects, i, ray).value.t, r.value.t)
  {
    var r := FindNearest(objects, ray);
    if r.Some? {
      var j :| FirstNearest(objects, ray, |objects|, j) && Report(objects, j, ray) == r;
      forall i | 0 <= i < |objects| && Report(objects, i, ray).Some?
        ensures !Less(Report(objects, i, ray).value.t, r.value.t)
      {
        if i < j {
          LessAsymmetric(r.value.t, Report(objects, i, ray).value.t);
        }
      }
    }
  }

  lemma LessAsymmetric(a: Dist, b: Dist)
    requires Less(a, b)
    ensures !Less(b, a)
  {
  }

  /** On equal distances the lowest-index object wins: every earlier reported hit is strictly farther. */
  lemma NearestFirstOnTies(objects: seq<SceneObject>, ray: Ray, i: nat, j: nat)
    requires ValidObjects(objects)
    requires i < j < |objects|
    requires FindNearest(objects, ray).Some? && FindNearest(objects, ray) == Report(objects, j, ray)
    requires Report(objects, i, ray).Some?
    ensures Less(Report(objects, j, ray).value.t, Report(objects, i, ray).value.t)
  {
    var r := FindNearest(objects, ray);
    var k: nat :| FirstNearest(objects, ray, |objects|, k) && Report(objects, k, ray) == r;
    assert r.value.objectRef == Some(k) == Some(j);
  }

  /** The material of the object a hit refers to (`intersection.object->material()`). */
  function MaterialOf(objects: seq<SceneObject>, hit: Intersection): Material
    requires hit.objectRef.Some? && hit.objectRef.value < |objects|
  {
    objects[hit.objectRef.value].material
  }

  /** When every reported reference is null or in range, the found hit names an object of the scene. */
  lemma NearestNamesSceneObject(objects: seq<SceneObject>, ray: Ray)
    requires RefsInScene(objects)
    ensures var r := FindNearest(objects, ray);
      r.Some? ==> r.value.objectRef.Some? && r.value.objectRef.value < |objects|
  {
    var r := FindNearest(objects, ray);
    if r.Some? {
      var j: nat :| FirstNearest(objects, ray, |objects|, j) && Report(objects, j, ray) == r;
      assert objects[j].intersect(ray) == r;
    }
  }

  // ---------------------------------------------------------------------
  // Shadow test (Tracer.cpp:120-132)

  /** The probe ray: from the hit point pushed out along the normal by the shadow bias, towards the light. */
  function ShadowRay(cfg: TracerConfig, math: MathLib, hit: Intersection, lightPos: Vec3): Ray {
    Ray(Plus(hit.point, Times(cfg.shadowBias, hit.normal)), math.direction(hit.point, lightPos))
  }

  /**
   * `obj` blocks the light: it reports a hit on the probe ray, the hit is
   * not of the original object (by reference), and the hit point is
   * strictly nearer the light than the probe's origin.
   */
  predicate Occludes(cfg: TracerConfig, math: MathLib, obj: SceneObject, hit: Intersection, lightPos: Vec3) {
    var probe := ShadowRay(cfg, math, hit, lightPos);
    var o := obj.intersect(probe);
    && o.Some?
    && o.value.objectRef != hit.objectRef
    && math.distance(o.value.point, lightPos) < math.distance(probe.origin, lightPos)
  }

  /** `isInShadow`: some object of the scene occludes the light. */
  predicate InShadow(cfg: TracerConfig, math: MathLib, objects: seq<SceneObject>, hit: Intersection, lightPos: Vec3) {
    exists i :: 0 <= i < |objects| && Occludes(cfg, math, objects[i], hit, lightPos)
  }

  /** Splitting the object list splits the shadow test. */
  lemma InShadowConcat(cfg: TracerConfig, math: MathLib, a: seq<SceneObject>, b: seq<SceneObject>, hit: Intersection, lightPos: Vec3)
    ensures InShadow(cfg, math, a + b, hit, lightPos) <==> InShadow(cfg, math, a, hit, lightPos) || InShadow(cfg, math, b, hit, lightPos)
  {
    if InShadow(cfg, math, a, hit, lightPos) {
      var i :| 0 <= i < |a| && Occludes(cfg, math, a[i], hit, lightPos);
      assert (a + b)[i] == a[i];
      assert Occludes(cfg, math, (a + b)[i], hit, lightPos);
    }
    if InShadow(cfg, math, b, hit, lightPos) {
      var i :| 0 <= i < |b| && Occludes(cfg, math, b[i], hit, lightPos);
      assert (a + b)[|a| + i] == b[i];
      assert Occludes(cfg, math, (a + b)[|a| + i], hit, lightPos);
    }
    if InShadow(cfg, math, a + b, hit, lightPos) {
      var i :| 0 <= i < |a + b| && Occludes(cfg, math, (a + b)[i], hit, lightPos);
      if i < |a| {
        assert a[i] == (a + b)[i];
        assert Occludes(cfg, math, a[i], hit, lightPos);
      } else {
        assert b[i - |a|] == (a + b)[i];
        assert Occludes(cfg, math, b[i - |a|], hit, lightPos);
      }
    }
  }

  /** An occluder of `a` is also an element of any reordering `b` of `a`. */
  lemma InShadowOfReordering(cfg: TracerConfig, math: MathLib, a: seq<SceneObject>, b: seq<SceneObject>, hit: Intersection, lightPos: Vec3)
    requires multiset(a) == multiset(b)
    requires InShadow(cfg, math, a, hit, lightPos)
    ensures InShadow(cfg, math, b, hit, lightPos)
  {
    var i :| 0 <= i < |a| && Occludes(cfg, math, a[i], hit, lightPos);
    assert a[i] in multiset(b);
    var j :| 0 <= j < |b| && b[j] == a[i];
    assert Occludes(cfg, math, b[j], hit, lightPos);
  }

  /** The shadow test does not depend on the order in which the objects are scanned. */
  lemma InShadowOrderIndependent(cfg: TracerConfig, math: MathLib, a: seq<SceneObject>, b: seq<SceneObject>, hit: Intersection, lightPos: Vec3)
    requires multiset(a) == multiset(b)
    ensures InShadow(cfg, math, a, hit, lightPos) == InShadow(cfg, math, b, hit, lightPos)
  {
    if InShadow(cfg, math, a, hit, lightPos) {
      InShadowOfReordering(cfg, math, a, b, hit, lightPos);
    }
    if InShadow(cfg, math, b, hit, lightPos) {
      InShadowOfReordering(cfg, math, b, a, hit, lightPos);
    }
  }

  /** The hit object never shadows itself: removing it from the scene leaves the shadow test unchanged. */
  lemma HitObjectNeverShadowsItself(cfg: TracerConfig, math: MathLib, objects: seq<SceneObject>, k: nat, hit: Intersection, lightPos: Vec3)
    requires ValidObjects(objects)
    requires k < |objects| && hit.objectRef == Some(k)
    ensures !Occludes(cfg, math, objects[k], hit, lightPos)
    ensures InShadow(cfg, math, objects, hit, lightPos) == InShadow(cfg, math, objects[..k] + objects[k + 1..], hit, lightPos)
  {
    var probe := ShadowRay(cfg, math, hit, lightPos);
    assert Report(objects, k, probe) == objects[k].intersect(probe);
    assert objects == objects[..k] + [objects[k]] + objects[k + 1..];
    InShadowConcat(cfg, math, objects[..k] + [objects[k]], objects[k + 1..], hit, lightPos);
    InShadowConcat(cfg, math, objects[..k], [objects[k]], hit, lightPos);
    InShadowConcat(cfg, math, objects[..k], objects[k + 1..], hit, lightPos);
  }

  // ---------------------------------------------------------------------
  // Local shading (Tracer.cpp:134-149)

  /** `computeDiffuseColor`: the material's diffuse colour scaled by the clamped cosine to the light. */
  function DiffuseColor(math: MathLib, hit: Intersection, mat: Material, lightPos: Vec3): (c: Color)
    ensures Dot(hit.normal, math.direction(hit.point, lightPos)) <= 0.0 ==> c == Black
    ensures Dot(hit.normal, math.direction(hit.point, lightPos)) > 0.0 ==>
      c == Scale(Dot(hit.normal, math.direction(hit.point, lightPos)), mat.diffuse)
  {
    var directionToLight := math.direction(hit.point, lightPos);
    Scale(Max(0.0, Dot(hit.normal, directionToLight)), mat.diffuse)
  }

  /**
   * `computeSpecularColor`: the material's specular colour scaled by a power
   * of a non-negative strength, taken against the half vector of the
   * direction to the camera and the light's raw position (Tracer.cpp:144).
   */
  function SpecularColor(math: MathLib, cam: Camera, hit: Intersection, mat: Material, lightPos: Vec3): (c: Color)
    ensures exists s :: s >= 0.0 && c == Scale(math.pow(s, mat.shininess), mat.specular)
  {
    var directionToCam := math.direction(hit.point, cam.position);
    var halfway := math.normalize(Plus(directionToCam, lightPos));
    var strength := Max(0.0, Dot(hit.normal, halfway));
    Scale(math.pow(strength, mat.shininess), mat.specular)
  }

  /** What one light adds to the local colour: the shadow colour when occluded, else intensity times diffuse plus specular. */
  function LightTerm(cfg: TracerConfig, math: MathLib, cam: Camera, objects: seq<SceneObject>, hit: Intersection, mat: Material, light: SceneLight): Color {
    if InShadow(cfg, math, objects, hit, light.position) then cfg.shadowColor
    else Modulate(light.intensityAt(hit.point),
                  Add(DiffuseColor(math, hit, mat, light.position), SpecularColor(math, cam, hit, mat, light.position)))
  }

  /** The non-reflected colour after the first `n` lights: ambient plus one term per light, in index order. */
  function LocalColor(cfg: TracerConfig, math: MathLib, cam: Camera, scene: Scene, hit: Intersection, mat: Material, n: nat): Color
    requires n <= |scene.lights|
  {
    if n == 0 then mat.ambient
    else Add(LocalColor(cfg, math, cam, scene, hit, mat, n - 1),
             LightTerm(cfg, math, cam, scene.objects, hit, mat, scene.lights[n - 1]))
  }

  /** One more light adds its term to the local colour. */
  lemma LocalColorStep(cfg: TracerConfig, math: MathLib, cam: Camera, scene: Scene, hit: Intersection, mat: Material,
                       n: nat, color: Color, term: Color)
    requires n < |scene.lights|
    requires color == LocalColor(cfg, math, cam, scene, hit, mat, n)
    requires term == LightTerm(cfg, math, cam, scene.objects, hit, mat, scene.lights[n])
    ensures Add(color, term) == LocalColor(cfg, math, cam, scene, hit, mat, n + 1)
  {
  }

  /** When every light is occluded, the local colour is ambient plus the shadow colour once per light. */
  lemma {:induction false} LocalColorAllShadowed(cfg: TracerConfig, math: MathLib, cam: Camera, scene: Scene, hit: Intersection, mat: Material, n: nat)
    requires n <= |scene.lights|
    requires forall i :: 0 <= i < n ==> InShadow(cfg, math, scene.objects, hit, scene.lights[i].position)
    ensures LocalColor(cfg, math, cam, scene, hit, mat, n) == Add(mat.ambient, Scale(n as real, cfg.shadowColor))
  {
    if n > 0 {
      LocalColorAllShadowed(cfg, math, cam, scene, hit, mat, n - 1);
    }
  }

  /** A light's own intensity, and the shading against it, never matter once it is occluded. */
  lemma {:induction false} LocalColorIgnoresOccludedLights(cfg: TracerConfig, math: MathLib, cam: Camera, scene: Scene, other: Scene, hit: Intersection, mat: Material, n: nat)
    requires n <= |scene.lights| && n <= |other.lights| && other.objects == scene.objects
    requires forall i :: 0 <= i < n ==> scene.lights[i].position == other.lights[i].position
    requires forall i :: 0 <= i < n ==> InShadow(cfg, math, scene.objects, hit, scene.lights[i].position) ||
                                         scene.lights[i] == other.lights[i]
    ensures LocalColor(cfg, math, cam, scene, hit, mat, n) == LocalColor(cfg, math, cam, other, hit, mat, n)
  {
    if n > 0 {
      LocalColorIgnoresOccludedLights(cfg, math, cam, scene, other, hit, mat, n - 1);
    }
  }

  // ---------------------------------------------------------------------
  // Reflection and the recursive tracer (Tracer.cpp:61-99)

  /** The mirror reflection of `d` about `n`, d - 2(d.n)n. */
  function Mirror(d: Vec3, n: Vec3): Vec3 {
    Plus(d, Times(-2.0 * Dot(d, n), n))
  }

  /** The direction `reflectRay` normalises, -d + 2(d.n)n, as written at Tracer.cpp:97. */
  function ReflectedDirection(d: Vec3, n: Vec3): (v: Vec3)
    ensures v == Times(-1.0, Mirror(d, n))
  {
    Plus(Times(-1.0, d), Times(2.0 * Dot(d, n), n))
  }

  /** `reflectRay`: the normalised direction, from the hit point pushed along it by the reflection bias. */
  function ReflectRay(cfg: TracerConfig, math: MathLib, ray: Ray, hit: Intersection): Ray {
    var dir := math.normalize(ReflectedDirection(ray.direction, hit.normal));
    Ray(Plus(hit.point, Times(cfg.reflectionBias, dir)), dir)
  }

  /**
   * `traceRay`: black once the depth budget is spent (checked before any
   * intersection search), the background colour on a miss, and otherwise
   * the blend of the local colour and, for a reflective material only, the
   * colour traced one level deeper along the reflected ray.
   */
  function TraceRay(cfg: TracerConfig, math: MathLib, cam: Camera, scene: Scene, ray: Ray, iteration: nat): Color
    requires RefsInScene(scene.objects)
    decreases cfg.maxNumReflections - iteration
  {
    if iteration >= cfg.maxNumReflections then Black
    else
      NearestNamesSceneObject(scene.objects, ray);
      match FindNearest(scene.objects, ray)
      case None => cfg.backgroundColor
      case Some(hit) =>
        var mat := MaterialOf(scene.objects, hit);
        var reflected :=
          if mat.reflectivity > 0.0 then TraceRay(cfg, math, cam, scene, ReflectRay(cfg, math, ray, hit), iteration + 1)
          else Black;
        var local := LocalColor(cfg, math, cam, scene, hit, mat, |scene.lights|);
        Add(Scale(mat.intrinsity, local), Scale(mat.reflectivity, reflected))
  }

  /** At or beyond the depth bound the result is black, even for a ray that hits nothing. */
  lemma TraceRayDepthCutoff(cfg: TracerConfig, math: MathLib, cam: Camera, scene: Scene, ray: Ray, iteration: nat)
    requires RefsInScene(scene.objects)
    requires iteration >= cfg.maxNumReflections
    ensures TraceRay(cfg, math, cam, scene, ray, iteration) == Black
  {
  }

  /** Within the depth bound, a ray that no object hits gets exactly the background colour. */
  lemma TraceRayMiss(cfg: TracerConfig, math: MathLib, cam: Camera, scene: Scene, ray: Ray, iteration: nat)
    requires RefsInScene(scene.objects)
    requires iteration < cfg.maxNumReflections
    requires NoFiniteHit(scene.objects, ray, |scene.objects|)
    ensures TraceRay(cfg, math, cam, scene, ray, iteration) == cfg.backgroundColor
  {
  }
  /**
   * Within the depth bound, a ray whose every reported hit has a null object
   * reference gets the background colour, whatever the distances: the
   * search reports no intersection and nothing is dereferenced.
   */
  lemma TraceRayNullReferences(cfg: TracerConfig, math: MathLib, cam: Camera, scene: Scene, ray: Ray, iteration: nat)
    requires RefsInScene(scene.objects)
    requires iteration < cfg.maxNumReflections
    requires forall i :: 0 <= i < |scene.objects| && Report(scene.objects, i, ray).Some? ==> Report(scene.objects, i, ray).value.objectRef.None?
    ensures FindNearest(scene.objects, ray).None?
    ensures TraceRay(cfg, math, cam, scene, ray, iteration) == cfg.backgroundColor
  {
  }


  /** One surface contact along a chain of reflections: the hit, its material and its local colour. */
  datatype Bounce = Bounce(hit: Intersection, material: Material, local: Color)

  /** How a chain of reflections ends: depth budget spent, a miss, or a non-reflective surface. */
  datatype PathEnd = DepthCutoff | Miss | Absorbed

  datatype ReflectionPath = ReflectionPath(bounces: seq<Bounce>, end: PathEnd)

  /** The chain of surfaces `traceRay` visits from `ray`, one per nested call that hits something. */
  function Path(cfg: TracerConfig, math: MathLib, cam: Camera, scene: Scene, ray: Ray, iteration: nat): ReflectionPath
    requires RefsInScene(scene.objects)
    decreases cfg.maxNumReflections - iteration
  {
    if iteration >= cfg.maxNumReflections then ReflectionPath([], DepthCutoff)
    else
      NearestNamesSceneObject(scene.objects, ray);
      match FindNearest(scene.objects, ray)
      case None => ReflectionPath([], Miss)
      case Some(hit) =>
        var mat := MaterialOf(scene.objects, hit);
        var b := Bounce(hit, mat, LocalColor(cfg, math, cam, scene, hit, mat, |scene.lights|));
        if mat.reflectivity > 0.0 then
          var rest := Path(cfg, math, cam, scene, ReflectRay(cfg, math, ray, hit), iteration + 1);
          ReflectionPath([b] + rest.bounces, rest.end)
        else ReflectionPath([b], Absorbed)
  }

  /** The colour of a chain: each bounce blends its local colour with the colour of the rest of the chain. */
  function Blend(cfg: TracerConfig, p: ReflectionPath): Color
    decreases |p.bounces|
  {
    if p.bounces == [] then (if p.end == Miss then cfg.backgroundColor else Black)
    else
      var b := p.bounces[0];
      Add(Scale(b.material.intrinsity, b.local),
          Scale(b.material.reflectivity, Blend(cfg, ReflectionPath(p.bounces[1..], p.end))))
  }

  /** The number of `traceRay` calls the chain takes, the first included. */
  function TraceCalls(p: ReflectionPath): nat {
    |p.bounces| + (if p.end == Absorbed then 0 else 1)
  }

  /** `traceRay` is the blend of the chain of reflections it follows. */
  lemma {:induction false} TraceRayIsBlendOfPath(cfg: TracerConfig, math: MathLib, cam: Camera, scene: Scene, ray: Ray, iteration: nat)
    requires RefsInScene(scene.objects)
    ensures TraceRay(cfg, math, cam, scene, ray, iteration) == Blend(cfg, Path(cfg, math, cam, scene, ray, iteration))
    decreases cfg.maxNumReflections - iteration
  {
    if iteration < cfg.maxNumReflections {
      NearestNamesSceneObject(scene.objects, ray);
      match FindNearest(scene.objects, ray)
      case None =>
      case Some(hit) =>
        var mat := MaterialOf(scene.objects, hit);
        if mat.reflectivity > 0.0 {
          var next := ReflectRay(cfg, math, ray, hit);
          TraceRayIsBlendOfPath(cfg, math, cam, scene, next, iteration + 1);
          var p := Path(cfg, math, cam, scene, ray, iteration);
          var rest := Path(cfg, math, cam, scene, next, iteration + 1);
          assert ReflectionPath(p.bounces[1..], p.end) == rest;
        }
    }
  }

  /** Every surface of the chain but the last is reflective, and the last is non-reflective exactly when the chain ends there. */
  predicate WellShaped(p: ReflectionPath) {
    && (forall k :: 0 <= k < |p.bounces| - 1 ==> p.bounces[k].material.reflectivity > 0.0)
    && (p.bounces != [] ==> (p.bounces[|p.bounces| - 1].material.reflectivity <= 0.0 <==> p.end == Absorbed))
    && (p.bounces == [] ==> p.end != Absorbed)
  }

  /** The chain `traceRay` follows is well shaped: only reflective surfaces continue it. */
  lemma {:induction false} PathShape(cfg: TracerConfig, math: MathLib, cam: Camera, scene: Scene, ray: Ray, iteration: nat)
    requires RefsInScene(scene.objects)
    ensures WellShaped(Path(cfg, math, cam, scene, ray, iteration))
    decreases cfg.maxNumReflections - iteration
  {
    if iteration < cfg.maxNumReflections {
      NearestNamesSceneObject(scene.objects, ray);
      match FindNearest(scene.objects, ray)
      case None =>
      case Some(hit) =>
        var mat := MaterialOf(scene.objects, hit);
        if mat.reflectivity > 0.0 {
          var next := ReflectRay(cfg, math, ray, hit);
          PathShape(cfg, math, cam, scene, next, iteration + 1);
          var rest := Path(cfg, math, cam, scene, next, iteration + 1);
          var b := Bounce(hit, mat, LocalColor(cfg, math, cam, scene, hit, mat, |scene.lights|));
          ShapeOfReflectiveCons(b, rest);
        }
    }
  }

  /** A reflective bounce in front of a well-shaped chain gives a well-shaped chain. */
  lemma ShapeOfReflectiveCons(b: Bounce, rest: ReflectionPath)
    requires b.material.reflectivity > 0.0
    requires WellShaped(rest)
    ensures WellShaped(ReflectionPath([b] + rest.bounces, rest.end))
  {
    var p := ReflectionPath([b] + rest.bounces, rest.end);
    forall k | 0 <= k < |p.bounces| - 1
      ensures p.bounces[k].material.reflectivity > 0.0
    {
      if k > 0 {
        assert p.bounces[k] == rest.bounces[k - 1];
      }
    }
    if rest.bounces != [] {
      assert p.bounces[|p.bounces| - 1] == rest.bounces[|rest.bounces| - 1];
    }
  }

  /**
   * The chain respects the reflection budget: none beyond it, no call in
   * it at an iteration past `maxNumReflections`, and a chain cut off by
   * the budget has used all of it.
   */
  lemma {:induction false} PathWithinBudget(cfg: TracerConfig, math: MathLib, cam: Camera, scene: Scene, ray: Ray, iteration: nat)
    requires RefsInScene(scene.objects)
    ensures var p := Path(cfg, math, cam, scene, ray, iteration);
      && (iteration >= cfg.maxNumReflections ==> p == ReflectionPath([], DepthCutoff))
      && (iteration < cfg.maxNumReflections ==> iteration + TraceCalls(p) - 1 <= cfg.maxNumReflections)
      && (p.end == DepthCutoff ==> iteration + |p.bounces| >= cfg.maxNumReflections)
    decreases cfg.maxNumReflections - iteration
  {
    if iteration < cfg.maxNumReflections {
      NearestNamesSceneObject(scene.objects, ray);
      match FindNearest(scene.objects, ray)
      case None =>
      case Some(hit) =>
        var mat := MaterialOf(scene.objects, hit);
        if mat.reflectivity > 0.0 {
          PathWithinBudget(cfg, math, cam, scene, ReflectRay(cfg, math, ray, hit), iteration + 1);
        }
    }
  }

  /** With one level of budget left, the reflected term is black whatever the reflectivity. */
  lemma LastLevelHasNoReflection(cfg: TracerConfig, math: MathLib, cam: Camera, scene: Scene, ray: Ray, iteration: nat, hit: Intersection)
    requires RefsInScene(scene.objects)
    requires iteration + 1 == cfg.maxNumReflections
    requires FindNearest(scene.objects, ray) == Some(hit)
    requires hit.objectRef.Some? && hit.objectRef.value < |scene.objects|
    ensures var mat := MaterialOf(scene.objects, hit);
      TraceRay(cfg, math, cam, scene, ray, iteration) ==
        Add(Scale(mat.intrinsity, LocalColor(cfg, math, cam, scene, hit, mat, |scene.lights|)), Scale(mat.reflectivity, Black))
  {
  }

  /** An empty scene renders every ray as the background within the depth bound, and black beyond it. */
  lemma EmptySceneTrace(cfg: TracerConfig, math: MathLib, cam: Camera, scene: Scene, ray: Ray, iteration: nat)
    requires scene.objects == []
    ensures ValidObjects(scene.objects) && RefsInScene(scene.objects)
    ensures TraceRay(cfg, math, cam, scene, ray, iteration) ==
      if iteration < cfg.maxNumReflections then cfg.backgroundColor else Black
  {
  }

  // ---------------------------------------------------------------------
  // Primary rays (Tracer.cpp:38-58)

  /** `static_cast<int>` of a `size_t`: the low 32 bits read as a two's-complement value. */
  function CastToInt(n: nat): (i: int)
    ensures i <= n
    ensures -0x8000_0000 <= i < 0x8000_0000
    ensures n < 0x8000_0000 ==> i == n
  {
    var low := n % 0x1_0000_0000;
    if low < 0x8000_0000 then low else low - 0x1_0000_0000
  }

  /** How often `for (int i = 0; i < bound; i++)` runs with `bound` taken from a `size_t`. */
  function LoopCount(n: nat): (c: nat)
    ensures c <= n
    ensures n < 0x8000_0000 ==> c == n
  {
    var i := CastToInt(n);
    if i > 0 then i else 0
  }

  /** The viewport coordinate of pixel `i` of `n`: its centre, (i + 0.5) times 1/n. */
  function ViewportCoord(i: nat, n: nat): (u: real)
    requires i < n
    ensures 0.0 < u < 1.0
  {
    var inv := 1.0 / n as real;
    var centre := i as real + 0.5;
    assert 0.0 < centre < n as real;
    assert 0.0 < inv;
    assert centre * inv < n as real * inv == 1.0;
    centre * inv
  }

  /** The primary ray of pixel (row, col): from the eye towards the pixel's point on the near plane. */
  function PrimaryRay(math: MathLib, cam: Camera, row: nat, col: nat, width: nat, height: nat): Ray
    requires row < height && col < width
  {
    var pixelWorldPosition := cam.viewportToWorld(Vec3(ViewportCoord(col, width), ViewportCoord(row, height), cam.nearClip));
    Ray(cam.position, math.direction(cam.position, pixelWorldPosition))
  }

  /** The colour `trace` writes at (row, col): `traceRay` of its primary ray at iteration 0. */
  function PixelColor(cfg: TracerConfig, math: MathLib, cam: Camera, scene: Scene, row: nat, col: nat, width: nat, height: nat): Color
    requires RefsInScene(scene.objects)
    requires row < height && col < width
  {
    TraceRay(cfg, math, cam, scene, PrimaryRay(math, cam, row, col, width, height), 0)
  }

  /** The cells of row `r` up to column `c`, left to right. */
  function RowCells(r: nat, c: nat): (cells: seq<(nat, nat)>)
    ensures |cells| == c
    ensures forall j :: 0 <= j < c ==> cells[j] == (r, j)
  {
    seq(c, j requires 0 <= j => (r, j))
  }

  /** Rows 0 to h-1, each left to right: the order in which `trace` writes the cells. */
  function RowMajor(h: nat, w: nat): seq<(nat, nat)> {
    if h == 0 then [] else RowMajor(h - 1, w) + RowCells(h - 1, w)
  }

  /** The write order lists h*w cells, each inside the grid, none twice, every cell of the grid. */
  lemma {:induction false} RowMajorVisitsEachCellOnce(h: nat, w: nat)
    ensures |RowMajor(h, w)| == h * w
    ensures forall k :: 0 <= k < |RowMajor(h, w)| ==> RowMajor(h, w)[k].0 < h && RowMajor(h, w)[k].1 < w
    ensures forall k1, k2 :: 0 <= k1 < k2 < |RowMajor(h, w)| ==> RowMajor(h, w)[k1] != RowMajor(h, w)[k2]
    ensures forall r, c :: 0 <= r < h && 0 <= c < w ==> (r, c) in RowMajor(h, w)
  {
    if h > 0 {
      RowMajorVisitsEachCellOnce(h - 1, w);
      var prev, last := RowMajor(h - 1, w), RowCells(h - 1, w);
      assert RowMajor(h, w) == prev + last;
      assert |prev + last| == (h - 1) * w + w == h * w;
      forall r, c | 0 <= r < h && 0 <= c < w
        ensures (r, c) in RowMajor(h, w)
      {
        if r < h - 1 {
          assert (r, c) in prev;
        } else {
          assert last[c] == (r, c);
        }
      }
    }
  }

  // ---------------------------------------------------------------------
  // The Tracer object

  /**
   * A tracer: the five configuration fields, their setters, and the
   * source's loops. The defaults of the no-argument constructor live in
   * Tracer.h, which is not part of this model, so the constructor takes
   * them as a value.
   */
  class Tracer {
    var shadowColor: Color
    var backgroundColor: Color
    var shadowBias: real
    var reflectionBias: real
    var maxNumReflections: nat

    function Settings(): TracerConfig
      reads this
    {
      TracerConfig(shadowColor, backgroundColor, shadowBias, reflectionBias, maxNumReflections)
    }

    constructor (defaults: TracerConfig)
      ensures Settings() == defaults
    {
      shadowColor := defaults.shadowColor;
      backgroundColor := defaults.backgroundColor;
      shadowBias := defaults.shadowBias;
      reflectionBias := defaults.reflectionBias;
      maxNumReflections := defaults.maxNumReflections;
    }

    method SetShadowColor(color: Color)
      modifies this
      ensures Settings() == old(Settings()).(shadowColor := color)
    {
      shadowColor := color;
    }

    method SetBackgroundColor(color: Color)
      modifies this
      ensures Settings() == old(Settings()).(backgroundColor := color)
    {
      backgroundColor := color;
    }

    method SetShadowBias(bias: real)
      modifies this
      ensures Settings() == old(Settings()).(shadowBias := bias)
    {
      shadowBias := bias;
    }

    method SetReflectionBias(bias: real)
      modifies this
      ensures Settings() == old(Settings()).(reflectionBias := bias)
    {
      reflectionBias := bias;
    }

    method SetMaxNumReflections(n: nat)
      modifies this
      ensures Settings() == old(Settings()).(maxNumReflections := n)
    {
      maxNumReflections := n;
    }

    /**
     * `findNearestIntersection`: found exactly when the scan keeps a hit
     * with an object reference; then `r` is that hit, else `r` is the
     * caller's record unchanged.
     */
    method FindNearestIntersection(scene: Scene, ray: Ray, result: Intersection) returns (found: bool, r: Intersection)
      ensures found <==> FindNearest(scene.objects, ray).Some?
      ensures found ==> Some(r) == FindNearest(scene.objects, ray)
      ensures !found ==> r == result
    {
      var tClosest := Infinity;
      var closestIntersection := NoIntersection;
      var index := 0;
      while index < |scene.objects|
        invariant index <= |scene.objects|
        invariant ScanState(tClosest, closestIntersection) == NearestScan(scene.objects, ray, index)
      {
        var intersection := scene.objects[index].intersect(ray);
        if intersection.Some? && Less(intersection.value.t, tClosest) {
          tClosest := intersection.value.t;
          closestIntersection := intersection.value;
        }
        index := index + 1;
      }
      if closestIntersection.objectRef.None? {
        found, r := false, result;
      } else {
        found, r := true, closestIntersection;
      }
    }

    /** `isInShadow`: scans the objects and stops at the first occluder. */
    method IsInShadow(math: MathLib, intersection: Intersection, light: SceneLight, scene: Scene) returns (shadowed: bool)
      ensures shadowed == InShadow(Settings(), math, scene.objects, intersection, light.position)
    {
      var shadowRay := Ray(Plus(intersection.point, Times(shadowBias, intersection.normal)),
                           math.direction(intersection.point, light.position));
      var distanceToLight := math.distance(shadowRay.origin, light.position);
      var index := 0;
      while index < |scene.objects|
        invariant index <= |scene.objects|
        invariant forall i :: 0 <= i < index ==> !Occludes(Settings(), math, scene.objects[i], intersection, light.position)
      {
        var occlusion := scene.objects[index].intersect(shadowRay);
        if occlusion.Some? && occlusion.value.objectRef != intersection.objectRef &&
           math.distance(occlusion.value.point, light.position) < distanceToLight {
          assert Occludes(Settings(), math, scene.objects[index], intersection, light.position);
          return true;
        }
        index := index + 1;
      }
      return false;
    }

    /**
     * One light's contribution to the non-reflected colour: the body of the
     * per-light loop. `cfg` is the tracer's current settings, which the
     * caller's loop has already read.
     */
    method ShadeByLight(cfg: TracerConfig, math: MathLib, cam: Camera, scene: Scene, intersection: Intersection, mat: Material, light: SceneLight)
      returns (term: Color)
      requires cfg == Settings()
      ensures Settings() == cfg
      ensures term == LightTerm(cfg, math, cam, scene.objects, intersection, mat, light)
    {
      var shadowed := IsInShadow(math, intersection, light, scene);
      if !shadowed {
        var diffuse := DiffuseColor(math, intersection, mat, light.position);
        var specular := SpecularColor(math, cam, intersection, mat, light.position);
        var lightIntensityAtPoint := light.intensityAt(intersection.point);
        term := Modulate(lightIntensityAtPoint, Add(diffuse, specular));
      } else {
        term := shadowColor;
      }
    }

    /**
     * The per-light loop of `traceRay` (Tracer.cpp:76-87): the material's
     * ambient colour plus, light by light, the shadow colour or the light's
     * intensity times diffuse plus specular.
     */
    method NonReflectedColor(math: MathLib, cam: Camera, scene: Scene, intersection: Intersection, mat: Material) returns (color: Color)
      ensures color == LocalColor(Settings(), math, cam, scene, intersection, mat, |scene.lights|)
    {
      var cfg := Settings();
      color := mat.ambient;
      var index := 0;
      while index < |scene.lights|
        invariant index <= |scene.lights|
        invariant Settings() == cfg
        invariant color == LocalColor(cfg, math, cam, scene, intersection, mat, index)
      {
        var term := ShadeByLight(cfg, math, cam, scene, intersection, mat, scene.lights[index]);
        LocalColorStep(cfg, math, cam, scene, intersection, mat, index, color, term);
        color := Add(color, term);
        index := index + 1;
      }
    }

    /**
     * `trace`: row by row, column by column, writes `traceRay` of each
     * pixel's primary ray into the buffer. The loop bounds are the buffer's
     * sizes cast to `int`; `writes` records the cells in the order written.
     */
    method Trace(math: MathLib, cam: Camera, scene: Scene, frameBuffer: FrameBuffer) returns (ghost writes: seq<(nat, nat)>)
      requires RefsInScene(scene.objects) && frameBuffer.Valid()
      modifies frameBuffer
      ensures frameBuffer.Valid()
      ensures writes == RowMajor(LoopCount(frameBuffer.height), LoopCount(frameBuffer.width))
      ensures forall r, c :: 0 <= r < frameBuffer.height && 0 <= c < frameBuffer.width ==>
        frameBuffer.pixels[r][c] ==
          if r < LoopCount(frameBuffer.height) && c < LoopCount(frameBuffer.width)
          then PixelColor(Settings(), math, cam, scene, r, c, LoopCount(frameBuffer.width), LoopCount(frameBuffer.height))
          else old(frameBuffer.pixels[r][c])
    {
      var width := CastToInt(frameBuffer.width);
      var height := CastToInt(frameBuffer.height);
      ghost var cols, rows := LoopCount(frameBuffer.width), LoopCount(frameBuffer.height);
      ghost var before := frameBuffer.pixels;
      ghost var cfg := Settings();
      writes := [];
      var row: nat := 0;
      while row < height
        invariant row <= rows
        invariant frameBuffer.Valid()
        invariant writes == RowMajor(row, cols)
        invariant FilledUpTo(frameBuffer.pixels, before, cfg, math, cam, scene, row, 0, cols, rows)
      {
        var col: nat := 0;
        while col < width
          invariant col <= cols
          invariant frameBuffer.Valid()
          invariant writes == RowMajor(row, cols) + RowCells(row, col)
          invariant FilledUpTo(frameBuffer.pixels, before, cfg, math, cam, scene, row, col, cols, rows)
        {
          var primaryRay := PrimaryRay(math, cam, row, col, width, height);
          var pixelColor := TraceRay(Settings(), math, cam, scene, primaryRay, 0);
          ghost var pixels := frameBuffer.pixels;
          frameBuffer.SetColor(row, col, pixelColor);
          FillOneCell(pixels, before, cfg, math, cam, scene, row, col, cols, rows);
          writes := writes + [(row, col)];
          col := col + 1;
        }
        FillNextRow(frameBuffer.pixels, before, cfg, math, cam, scene, row, cols, rows);
        assert RowMajor(row + 1, cols) == RowMajor(row, cols) + RowCells(row, cols);
        row := row + 1;
      }
      FillDone(frameBuffer.pixels, before, cfg, math, cam, scene, row, cols, rows);
    }
  }

  /** Cell (r, c) comes before cell (row, col) in the write order, within rows of `cols` cells. */
  predicate WrittenBefore(r: nat, c: nat, row: nat, col: nat, cols: nat) {
    (r < row || (r == row && c < col)) && c < cols
  }

  /** The grid holds each pixel traced so far and the original colour elsewhere. */
  ghost predicate FilledUpTo(pixels: seq<seq<Color>>, before: seq<seq<Color>>, cfg: TracerConfig, math: MathLib, cam: Camera,
                             scene: Scene, row: nat, col: nat, cols: nat, rows: nat)
  {
    && RefsInScene(scene.objects)
    && |pixels| == |before|
    && (forall r :: 0 <= r < |pixels| ==> |pixels[r]| == |before[r]|)
    && forall r, c :: 0 <= r < |pixels| && 0 <= c < |pixels[r]| ==>
         pixels[r][c] == if WrittenBefore(r, c, row, col, cols) && r < rows then PixelColor(cfg, math, cam, scene, r, c, cols, rows)
                         else before[r][c]
  }

  lemma FillOneCell(pixels: seq<seq<Color>>, before: seq<seq<Color>>, cfg: TracerConfig, math: MathLib, cam: Camera,
                    scene: Scene, row: nat, col: nat, cols: nat, rows: nat)
    requires FilledUpTo(pixels, before, cfg, math, cam, scene, row, col, cols, rows)
    requires row < rows && col < cols && row < |pixels| && col < |pixels[row]|
    ensures FilledUpTo(pixels[row := pixels[row][col := PixelColor(cfg, math, cam, scene, row, col, cols, rows)]],
                       before, cfg, math, cam, scene, row, col + 1, cols, rows)
  {
  }

  lemma FillNextRow(pixels: seq<seq<Color>>, before: seq<seq<Color>>, cfg: TracerConfig, math: MathLib, cam: Camera,
                    scene: Scene, row: nat, cols: nat, rows: nat)
    requires FilledUpTo(pixels, before, cfg, math, cam, scene, row, cols, cols, rows)
    ensures FilledUpTo(pixels, before, cfg, math, cam, scene, row + 1, 0, cols, rows)
  {
  }

  lemma FillDone(pixels: seq<seq<Color>>, before: seq<seq<Color>>, cfg: TracerConfig, math: MathLib, cam: Camera,
                 scene: Scene, row: nat, cols: nat, rows: nat)
    requires FilledUpTo(pixels, before, cfg, math, cam, scene, row, 0, cols, rows) && row >= rows
    ensures forall r, c :: 0 <= r < |pixels| && 0 <= c < |pixels[r]| ==>
      pixels[r][c] == if r < rows && c < cols then PixelColor(cfg, math, cam, scene, r, c, cols, rows) else before[r][c]
  {
  }
}
