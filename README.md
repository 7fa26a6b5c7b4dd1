# Ray tracer core in Dafny

This project models the rendering core of a small C++ Whitted-style ray
tracer:

- the `Tracer` (`src/Tracer.cpp`): the per-pixel primary-ray loop
  (`trace`), the recursive `traceRay` with its depth budget, the
  nearest-hit search, the shadow test, the diffuse and specular terms, the
  reflected ray and the five configuration setters;
- the `FrameBuffer` (`src/FrameBuffers.hpp`): a `height` × `width` grid of
  colours with its size fields, `getColor`/`setColor`, and the binary PPM
  stream that `writeToFile` emits (header, then rows bottom to top);
- the point `Light` (`src/Lights.hpp`): its three constructors, the colour
  setters and the getters.

Files:

- `math3d.dfy` (`Math3D`): vectors, colours, hit distances (`Dist`, a
  finite value or `Math::INF`), rays. It also holds `MathLib`, the
  caller-supplied `normalize`, `direction`, `distance` and `pow`.
- `scene.dfy` (`Scene`): the interface the tracer consumes. A scene object
  is its material plus an arbitrary intersection routine. A light is its
  position plus an arbitrary intensity field. `ValidObjects` states that
  a hit reported by object `i` names object `i`. The weaker `RefsInScene`
  states that every reported object reference is null or names a scene
  object, which is all the tracer needs.
- `tracing.dfy` (`Tracing`):
  - pure specifications: `FindNearest`, `InShadow`, `LocalColor`,
    `TraceRay`, `RowMajor`;
  - their lemmas;
  - the `Tracer` class, whose loop methods are proved equal to those
    specifications.
- `framebuffers.dfy` (`FrameBuffers`):
  - the PPM header and payload as functions over bytes;
  - the decimal round trip;
  - the `FrameBuffer` class.
- `lights.dfy` (`Lights`): the `Light` class.

Numbers are exact reals and unbounded integers. Where the C++ relies on
integer width, the model writes the width out: `size_t` is taken modulo
2^64, and `static_cast<int>` keeps the low 32 bits as two's complement.

Behaviour of the code as written, which the model follows:

- With `maxNumReflections == 0`, every pixel is black, even where a ray
  hits nothing. `traceRay` checks the depth budget before it looks for an
  intersection (`src/Tracer.cpp:62-64`). Likewise, a chain of
  reflections that runs out of budget contributes black, not the
  background.
- `reflectRay` builds `-d + 2(d·n)n`. This is the negated textbook mirror
  `d - 2(d·n)n` (`ReflectedDirection`).
- The specular half vector is `normalize(directionToCam + lightPosition)`.
  It uses the light's position, not the direction to the light
  (`src/Tracer.cpp:144`).
- `trace` calls `frameBuffer.width()`, `height()` and `setPixel`, but the
  `FrameBuffer` class offers `getWidth()`, `getHeight()` and `setColor`.
  The model reads the buffer's `width`/`height` fields and writes through
  `SetColor`.
- `isInShadow` skips an occluder only when it is the very object that was
  hit. Any other object casts a shadow when the shadow ray hits it at a
  point nearer the light than the ray's origin, even if that point lies
  beyond the light.

## Model

| member | source | states |
|---|---|---|
| Tracing.NearestScanKeepsFirstNearest | src/Tracer.cpp:102-110 | after scanning k objects, the kept distance and record belong to the first object with the strictly smallest finite distance, or stay `INF` and the empty record if none hit finitely |
| Tracing.FindNearest | src/Tracer.cpp:101-118 | a found hit carries an object reference and is the report of the first object with the smallest distance |
| Tracing.NearestFoundIff | src/Tracer.cpp:106-117 | a hit is found if and only if some object reports a hit at a finite distance |
| Tracing.NearestIsMinimal | src/Tracer.cpp:104-110 | no object reports a hit strictly nearer than the one found |
| Tracing.NearestFirstOnTies | src/Tracer.cpp:106 | when object j is chosen, every earlier hitting object i is strictly farther (ties keep the earlier object) |
| Tracing.NearestNamesSceneObject | src/Tracer.cpp:112-116 | when every reported reference is null or names a scene object, a found hit names an object of the scene, so dereferencing its object is safe |
| Tracing.InShadowConcat | src/Tracer.cpp:123-131 | a point is shadowed by a + b exactly when it is shadowed by a or by b |
| Tracing.InShadowOrderIndependent | src/Tracer.cpp:123-131 | the shadow verdict is the same for any reordering of the objects (equal multisets) |
| Tracing.HitObjectNeverShadowsItself | src/Tracer.cpp:125-127 | the hit object never occludes its own hit point; removing it from the scene leaves the verdict unchanged |
| Tracing.DiffuseColor | src/Tracer.cpp:134-140 | black when the normal faces away from the light (dot <= 0), otherwise the diffuse colour scaled by that dot product |
| Tracing.SpecularColor | src/Tracer.cpp:142-149 | the specular colour scaled by `pow(s, shininess)` for some strength s >= 0 |
| Tracing.LocalColorAllShadowed | src/Tracer.cpp:76-87 | when every light is occluded, the local colour is the ambient colour plus one shadow colour per light |
| Tracing.LocalColorIgnoresOccludedLights | src/Tracer.cpp:79-86 | the intensity and colour terms of occluded lights have no effect on the local colour |
| Tracing.ReflectedDirection | src/Tracer.cpp:96-98 | the direction `reflectRay` normalises is the negation of the mirror reflection d - 2(d·n)n of the incoming direction |
| Tracing.TraceRayDepthCutoff | src/Tracer.cpp:62-64 | at or beyond the reflection budget the colour is black |
| Tracing.TraceRayMiss | src/Tracer.cpp:66-69 | within the budget, a ray that hits nothing finitely gets the background colour |
| Tracing.TraceRayNullReferences | src/Tracer.cpp:66-113 | within the budget, a ray whose every reported hit has a null object reference finds no intersection and gets the background colour, whatever the distances |
| Tracing.TraceRayIsBlendOfPath | src/Tracer.cpp:61-92 | `traceRay` equals the blend `intrinsity·local + reflectivity·rest` folded over the chain of surfaces it visits |
| Tracing.PathShape | src/Tracer.cpp:71-74 | the chain is `WellShaped`: every surface except the last is reflective, and the last is non-reflective exactly when the chain ends there |
| Tracing.PathWithinBudget | src/Tracer.cpp:62-74 | the chain is empty at or past the budget, no nested call runs past `maxNumReflections`, and a chain cut off by the budget has used all of it |
| Tracing.LastLevelHasNoReflection | src/Tracer.cpp:62-91 | with one level of budget left, the reflected contribution is black |
| Tracing.EmptySceneTrace | src/Tracer.cpp:62-69 | in an empty scene every ray is the background within the budget and black beyond it |
| Tracing.CastToInt | src/Tracer.cpp:39-40 | the int cast of a size is in the 32-bit range, never exceeds it, and is exact below 2^31 |
| Tracing.LoopCount | src/Tracer.cpp:46-47 | the number of rows or columns visited is at most the buffer's size and equals it below 2^31 |
| Tracing.ViewportCoord | src/Tracer.cpp:41-50 | every pixel centre's viewport coordinate lies strictly between 0 and 1 |
| Tracing.RowMajorVisitsEachCellOnce | src/Tracer.cpp:46-57 | the loop order visits h·w cells, all in range, each exactly once |
| Tracing.ShadowRay | src/Tracer.cpp:121 | definition of the probe ray: the hit point pushed along the normal by the shadow bias, pointing towards the light; used by `Occludes` |
| Tracing.Occludes | src/Tracer.cpp:124-127 | definition of one object blocking the light: a reported hit on the probe ray, of a different object, strictly nearer the light than the probe's origin; properties in `HitObjectNeverShadowsItself` |
| Tracing.InShadow | src/Tracer.cpp:120-132 | definition of `isInShadow`: some object occludes the light; properties in `InShadowConcat`, `InShadowOrderIndependent`, `HitObjectNeverShadowsItself`, and `Tracer.IsInShadow` computes it |
| Tracing.LightTerm | src/Tracer.cpp:79-86 | definition of one light's contribution: the shadow colour when occluded, otherwise intensity times diffuse plus specular |
| Tracing.LocalColor | src/Tracer.cpp:76-87 | definition of the non-reflected colour: ambient plus one `LightTerm` per light, in index order; properties in `LocalColorAllShadowed`, `LocalColorIgnoresOccludedLights`, and `Tracer.NonReflectedColor` computes it |
| Tracing.ReflectRay | src/Tracer.cpp:95-100 | definition of `reflectRay`: the normalised `ReflectedDirection`, from the hit point pushed along it by the reflection bias |
| Tracing.TraceRay | src/Tracer.cpp:61-92 | definition of `traceRay`; properties in `TraceRayDepthCutoff`, `TraceRayMiss`, `TraceRayIsBlendOfPath`, `PathShape`, `PathWithinBudget`, `LastLevelHasNoReflection`, `EmptySceneTrace` |
| Tracing.PrimaryRay | src/Tracer.cpp:48-53 | definition of a pixel's primary ray: from the eye towards the world point of the pixel centre on the near plane; its coordinates are bounded by `ViewportCoord` |
| Tracing.PixelColor | src/Tracer.cpp:48-54 | definition of a pixel's colour: `TraceRay` of its primary ray at depth 0; `Tracer.Trace` writes it to every visited cell |
| Tracing.Tracer.constructor | src/Tracer.cpp:12-18 | the new tracer holds the given defaults |
| Tracing.Tracer.SetShadowColor | src/Tracer.cpp:20-22 | only the shadow colour changes |
| Tracing.Tracer.SetBackgroundColor | src/Tracer.cpp:23-25 | only the background colour changes |
| Tracing.Tracer.SetShadowBias | src/Tracer.cpp:26-28 | only the shadow bias changes |
| Tracing.Tracer.SetReflectionBias | src/Tracer.cpp:29-31 | only the reflection bias changes |
| Tracing.Tracer.SetMaxNumReflections | src/Tracer.cpp:32-34 | only the reflection budget changes |
| Tracing.Tracer.FindNearestIntersection | src/Tracer.cpp:101-118 | returns true exactly when a nearest hit exists, then outputs it; otherwise the output record is left as it was |
| Tracing.Tracer.IsInShadow | src/Tracer.cpp:120-132 | the early-exit loop returns the shadow verdict over all objects |
| Tracing.Tracer.ShadeByLight | src/Tracer.cpp:78-86 | the per-light step returns that light's term: the shadow colour when occluded, otherwise intensity times diffuse plus specular; the settings are unchanged |
| Tracing.Tracer.NonReflectedColor | src/Tracer.cpp:76-87 | the per-light accumulation loop computes the local colour over all lights |
| Tracing.Tracer.Trace | src/Tracer.cpp:38-58 | cells are written in row-major order, each once; every visited cell holds `traceRay` of its primary ray at depth 0; all other cells keep their colour |
| FrameBuffers.HeaderText | src/FrameBuffers.hpp:58 | definition of the header text `P6`, width, a space, height, `255`, each line ended by a newline; properties in `HeaderRoundTrip` |
| FrameBuffers.HeaderBytes | src/FrameBuffers.hpp:58 | definition of the header as bytes, one per character; `WriteToFile` emits it first |
| FrameBuffers.PixelBytes | src/FrameBuffers.hpp:62-64 | definition of one pixel's bytes: red, green, blue through the channel-to-byte cast |
| FrameBuffers.RowBytes | src/FrameBuffers.hpp:60-65 | definition of one row's bytes, pixels left to right; properties in `RowBytesAt` |
| FrameBuffers.Payload | src/FrameBuffers.hpp:59-65 | definition of the pixel bytes: stored rows from last to first; properties in `PayloadAt` |
| FrameBuffers.Decimal | src/FrameBuffers.hpp:58 | the decimal text of a size is a non-empty string of digits without a leading zero |
| FrameBuffers.DecimalRoundTrip | src/FrameBuffers.hpp:58 | reading back the decimal text of n gives n |
| FrameBuffers.HeaderRoundTrip | src/FrameBuffers.hpp:58 | the `P6` header can be parsed back to the buffer's width and height |
| FrameBuffers.RowBytesAt | src/FrameBuffers.hpp:60-65 | a row is 3 bytes per pixel, r, g, b in column order |
| FrameBuffers.PayloadAt | src/FrameBuffers.hpp:59-65 | the payload has height·width·3 bytes, and byte (i·width + c)·3 + k is channel k of stored pixel (height-1-i, c): rows bottom to top, columns left to right |
| FrameBuffers.AppendRow | src/FrameBuffers.hpp:60-65 | the column loop appends exactly the row's bytes, three per pixel, left to right |
| FrameBuffers.AppendRows | src/FrameBuffers.hpp:59-65 | the row loop appends exactly the payload: stored rows from last to first |
| FrameBuffers.FrameBuffer.constructor | src/FrameBuffers.hpp:23-31 | the buffer has `height` rows of `width` cells, all the default colour, and `numPixels` is width·height modulo 2^64 |
| FrameBuffers.TruncateToSize | src/FrameBuffers.hpp:33 | the float-to-`size_t` cast drops the fraction toward zero: 0 for a component in (-1, 0), otherwise the largest whole number not above it |
| FrameBuffers.FrameBuffer.FromSize | src/FrameBuffers.hpp:32-34 | the size's components are truncated toward zero, then used as by the main constructor |
| FrameBuffers.FrameBuffer.GetWidth | src/FrameBuffers.hpp:36 | `getWidth()` is the constructed width, also for a buffer with no rows, and every row has that many cells |
| FrameBuffers.FrameBuffer.GetHeight | src/FrameBuffers.hpp:37 | `getHeight()` is the number of rows |
| FrameBuffers.FrameBuffer.GetNumPixels | src/FrameBuffers.hpp:26-38 | `getNumPixels()` is width·height whenever that product fits in `size_t` |
| FrameBuffers.FrameBuffer.SetColor | src/FrameBuffers.hpp:50-52 | the cell reads back the new colour, and every other cell is unchanged |
| FrameBuffers.FrameBuffer.WriteToFile | src/FrameBuffers.hpp:56-68 | the emitted bytes are the header followed by the rows bottom to top |
| Lights.Light.constructor | src/Lights.hpp:19-21 | the light has the position and the three colours; its other material fields are 1, 0, 0, 1 |
| Lights.Light.FromMaterial | src/Lights.hpp:23-24 | only the three colours of the material are kept; its other fields are replaced by the fixed ones |
| Lights.Light.AtPosition | src/Lights.hpp:13-27 | a light at the given position (the origin by default) with ambient 0.2 and diffuse and specular 1 |
| Lights.Light.SetColors | src/Lights.hpp:29-33 | sets the three colours; the position and the rest of the material are unchanged |
| Lights.Light.SetAmbientColor | src/Lights.hpp:34 | only the ambient colour changes |
| Lights.Light.SetDiffuseColor | src/Lights.hpp:35 | only the diffuse colour changes |
| Lights.Light.SetSpecularColor | src/Lights.hpp:36 | only the specular colour changes |

## Left out

- Floating point: all arithmetic is on exact reals. Rounding, NaN distances, and the float reciprocals `1.0f / width` are not modelled.
- `#pragma omp for schedule(dynamic)` (`src/Tracer.cpp:45`): `trace` opens no `parallel` region around it, so as written the pixel loop runs on the calling thread alone, and it is modelled as that sequential loop. Even a caller that opened a parallel region would not change the result: every cell is written once, by a computation that reads no other cell.
- `Math::normalize`, `Math::direction`, `Math::distance`, `Math::pow`, the objects' `intersect` routines, `ILight::computeIntensityAtPoint` and `Camera::viewportToWorld`: each is an arbitrary function passed in. `Math.hpp`, `Objects.h`, `Camera.h` and `Scene.h` are not part of this model.
- `Material.hpp` is not part of this model. The order of its four scalars (intrinsity, reflectivity, an unused weight, shininess) is an assumption. `Light` passes 1, 0, 0, 1 (`src/Lights.hpp:21`), which does not reveal the order. The matte material's `setWeights(1.00f, 0.00f)` (`src/Main.cpp:22`) is consistent with it.
- `Tracer.h` is not part of this model. Its `DEFAULT_*` constants are the constructor's parameter.
- The Tracer getters and `operator<<` of Tracer, FrameBuffer and Light: printing is not modelled. The tracer's settings are observed through `Settings()`.
- `FrameBuffer::computeMegaPixels`, `getMegaPixels` and `getImageDescription`: these use float rounding and text formatting, which are not modelled.
- `FrameBuffer::getDefaultColor`: it returns a constant field, which the model exposes as `defaultColor`.
- `FrameBuffer::getColor` and the `Light` getters: they only read a field and carry no contract of their own. They appear in the contracts of the setters and constructors.
- FrameBuffers.FrameBuffer.WriteToFile: opening and writing the file is not modelled. The method returns the byte stream it would write.
- FrameBuffers.FrameBuffer.WriteToFile: `static_cast<unsigned char>(c * 255)` is a caller-supplied `channelByte` function.
- Allocation failure in `pixels.resize` is not modelled.
- FrameBuffers.FrameBuffer.FromSize: components must lie strictly between -1 and 2^64. Outside that range, and for NaN, the truncated value does not fit in `size_t`, and the C++ cast is undefined.
- Tracing.SpecularColor: the contract fixes the result up to the strength `s`. The half vector that determines `s` is given by the function's body.
- Tracing.TraceRay requires `RefsInScene`: every object reference a primitive reports is null or names a scene object. A null reference is inside the model: the search turns it into "no intersection", as at `src/Tracer.cpp:112-113`, and `traceRay` returns the background. A non-null reference outside the scene is left out, because `traceRay` dereferences it for the material (`src/Tracer.cpp:72`) and the model looks that material up by index. The stronger `ValidObjects` (each reported hit names its own primitive) is the primitives' contract, and only `NearestFoundIff`, `NearestFirstOnTies` and `HitObjectNeverShadowsItself` assume it.
- `src/Main.cpp` (scene setup and the command line) is not part of this model.
