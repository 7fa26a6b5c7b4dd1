// The tracer's collaborators, reduced to the interface it consumes:
// materials, hit records, primitives, lights, the camera and the scene.

module Scene {
  import opened Math3D

  /**
   * A surface material. The order of the four scalars is assumed: the
   * blend weight of the local colour, the blend weight of the reflected
   * colour, a third weight the tracer never reads, and the specular
   * exponent.
   */
  datatype Material = Material(
    ambient: Color,
    diffuse: Color,
    specular: Color,
    intrinsity: real,
    reflectivity: real,
    thirdWeight: real,
    shininess: real)

  /**
   * A hit record. `objectRef` is the reference to the primitive that was hit
   * (its index in the scene); `None` is the null reference of a record no
   * primitive has filled in.
   */
  datatype Intersection = Intersection(t: Dist, point: Vec3, normal: Vec3, objectRef: Option<nat>)


  /** A default-constructed hit record: no object. */
  const NoIntersection: Intersection := Intersection(Infinity, Origin, Origin, None)

  /**
   * A primitive: its material and its own intersection routine, which
   * either reports no hit or fills in a hit record.
   */
  datatype SceneObject = SceneObject(material: Material, intersect: Ray -> Option<Intersection>)

  /** A light as the tracer sees it: a position and an intensity at each point. */
  datatype SceneLight = SceneLight(position: Vec3, intensityAt: Vec3 -> Color)

  /** The camera services the tracer uses. */
  datatype Camera = Camera(position: Vec3, nearClip: real, viewportToWorld: Vec3 -> Vec3)

  /** The scene: primitives and lights, each enumerated by index. */
  datatype Scene = Scene(objects: seq<SceneObject>, lights: seq<SceneLight>)

  /** What object `i` reports for `ray`. */
  function Report(objects: seq<SceneObject>, i: nat, ray: Ray): Option<Intersection>
    requires i < |objects|
  {
    objects[i].intersect(ray)
  }

  /**
   * Every hit a primitive reports refers back to that primitive: the
   * primitives' own contract. The nearest-hit search finds a hit exactly
   * when some primitive reports one only under this.
   */
  ghost predicate ValidObjects(objects: seq<SceneObject>) {
    forall i: nat, ray: Ray {:trigger objects[i].intersect(ray)} ::
      i < |objects| && objects[i].intersect(ray).Some? ==>
        objects[i].intersect(ray).value.objectRef == Some(i)
  }

  /**
   * Every object reference a primitive reports is null or names an object
   * of the scene. A null reference is the tracer's "no hit"; a non-null one
   * is dereferenced for its material, so it must name a scene object.
   */
  ghost predicate RefsInScene(objects: seq<SceneObject>) {
    forall i: nat, ray: Ray {:trigger objects[i].intersect(ray)} ::
      i < |objects| && objects[i].intersect(ray).Some? && objects[i].intersect(ray).value.objectRef.Some? ==>
        objects[i].intersect(ray).value.objectRef.value < |objects|
  }
}
