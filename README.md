# Ray-casting renderer core, modelled in Dafny

This project models the core of a small real-time ray tracer (src/main.cpp):

- `castRay`: the per-pixel ray cast. It walks the scene's object list in
  order. It starts from a sentinel depth of 99999. It keeps the strictly
  nearest reported hit, so the first object wins a tie. It then returns the
  sky colour (173, 216, 230) when nothing was kept. Otherwise it returns the
  kept object's diffuse colour, scaled by the light intensity and by the
  clamped cosine `max(0, dot(normal, light))`.
- `render`: the raster sweep over the 800 × 600 grid. It goes row by row and
  emits one point per pixel.
- `setUp`: the scene population. It appends a rubber sphere and then an ivory
  sphere to the global object list.

Files:

- `material.dfy` (module `Materials`): the colour value and the `Material`
  record of src/material.h.
- `geometry.dfy` (module `Geometry`): the shapes of the values the renderer takes
  from headers that are not part of this model (vectors, `Intersect`,
  `Sphere`, `Light`). It also holds the function types through which their
  behaviour enters the model.
- `raytracer.dfy` (module `Raytracer`): the selection, the ray cast, the sweep
  and the `Renderer` class holding the program's globals.

How it is modelled:

- The selection loop of `castRay` is specified by `Select`, a left fold of
  one loop pass (`Step`) over the objects' ray-test results. `CastRay` is the
  loop itself. Its invariant ties the three loop locals to `Select` of the
  results seen so far. `IsFirstNearest` is an independent reference
  definition of the wanted answer, and `SelectIsFirstNearest` proves that the
  two agree, in both directions.
- The `hitObject` pointer becomes an index into the object list (`None` for
  the null pointer).
- The global object vector and the display are fields of the class
  `Renderer`: `objects`, and `points`, the trace of emitted pixels. `SetUp`
  and `Render` append to them.
- Each object's `rayIntersect`, the colour type's `operator*`, the global
  light and the per-pixel ray direction are parameters (`Context`,
  `rayDirection`). The headers that define them (object.h, sphere.h, color.h,
  light.h) and the vector library are not part of this model.
- A default-constructed `Intersect` is taken to report no hit (`NoHit`). Its
  definition is in object.h, which is not part of this model. The background
  test at src/main.cpp:40 reads `intersect.isIntersecting` rather than the
  `hitObject` pointer, so it is only correct under this assumption. `Select`
  proves that under it the intersect reports a hit exactly when an object
  was recorded.
- Floats are modelled as exact reals.

## Model

| member | source | states |
|---|---|---|
| `Raytracer.Select` | src/main.cpp:27-38 | after the loop, either nothing is recorded and the depth is still the sentinel with the default intersect, or the recorded index is in range, its result is a hit nearer than 99999, the recorded intersect is that object's own result and the depth is its distance |
| `Raytracer.SelectFindsFirstNearest` | src/main.cpp:27-38 | nothing is recorded exactly when no object reports a hit nearer than 99999; otherwise the recorded object is no farther than any such hit and strictly nearer than every earlier one |
| `Raytracer.SelectIsFirstNearest` | src/main.cpp:31-38 | the loop records object k if and only if k is the first nearest hit below the sentinel |
| `Raytracer.TieGoesToFirst` | src/main.cpp:33 | of two hits at the same distance, the later object is never recorded, because the comparison is strict |
| `Raytracer.SelectIgnoresMisses` | src/main.cpp:33-37 | results that report no intersection never influence the selection: two result lists that agree wherever either reports a hit select the same object, intersect and depth |
| `Raytracer.DiffuseIntensity` | src/main.cpp:44 | the diffuse factor is the maximum of 0 and the cosine: never negative, never below the cosine, and equal to one of the two |
| `Raytracer.ShadeOfMiss` | src/main.cpp:40-42 | when no object reports a hit nearer than 99999, the cast colour is exactly (173, 216, 230) |
| `Raytracer.ShadeOfNearest` | src/main.cpp:44-49 | when there is a hit, the colour is the first nearest object's diffuse colour scaled by the light intensity and then by the clamped cosine at that same object's normal |
| `Raytracer.CastRay` | src/main.cpp:26-49 | the loop's result is the colour of the selection over the objects' ray tests in list order; with no hit below the sentinel it is the sky colour |
| `Raytracer.FrameAt` | src/main.cpp:68-80 | pixel (x, y) of the 800 × 600 grid is emitted at position y · 800 + x of the frame, with the colour cast through that pixel |
| `Raytracer.FrameIsRowMajor` | src/main.cpp:68-69 | a frame has exactly 800 · 600 points, each inside the grid, in strictly increasing row-major order (y outer, x inner), so no pixel is emitted twice |
| `Raytracer.Renderer.constructor` | src/main.cpp:18 | the global object list starts empty and nothing has been emitted |
| `Raytracer.Renderer.SetUp` | src/main.cpp:52-64 | exactly two spheres are appended, first the one at (0, 0, −8) with radius 1 and material rubber, then the one at (−1, 0, −4) with radius 1 and material ivory; earlier entries and the emitted points are unchanged |
| `Raytracer.Renderer.Render` | src/main.cpp:66-83 | with the light at its fixed intensity 1.5, one frame appends to the emitted points exactly the frame sequence: one point per pixel, row-major, each carrying the colour `castRay` gives for that pixel's ray from the origin |

## Left out

- The display glue: `point`, `main`, window and renderer creation, the event
  loop, screen clearing and the FPS title (src/main.cpp:17, 21-24, 85-156).
  Emitting a point is modelled as an append to `Renderer.points`.
- The float mapping from a pixel to a ray direction, with `tan`, the aspect
  ratio and `normalize` (src/main.cpp:67-76). It is the parameter
  `rayDirection`.
- `Sphere::rayIntersect` and the `Object` base class. sphere.h and object.h
  are not part of this model. The ray test is the parameter
  `Context.rayIntersect`, and the scene's only object kind is `Sphere`.
- The colour operators. color.h is not part of this model. Colours are three
  integer channels, with no alpha and no clamping. `mat.diffuse *
  light.intensity * diffuseLightIntensity` is two applications of the
  parameter `Context.scale`, left to right.
- The global light's direction, `normalize(vec3(-1, 0.5, 3))`
  (src/main.cpp:19). normalize needs a float square root, so the direction
  is left free in `Context.light`. Its intensity is fixed: `Render` requires
  it to be `LightIntensity`, 1.5. light.h is not part of this model.
- Floating-point behaviour: rounding, and NaN distances or cosines. With
  exact reals there is no NaN, so the model does not show that a NaN distance
  is never selected, nor that `std::max(0, NaN)` gives 0.
- Pointer identity and heap allocation of the spheres (never freed). Objects
  are values and the recorded object is an index.
- The material fields `albedo`, `specularAlbedo` and `specularCoefficient`.
  They are carried in `Material` but never read.
- Specular highlights, point-light shading and an orbit camera: the code has
  none of them. It shades with the diffuse term only, treats the light's
  position as a direction, and casts every ray from the fixed origin
  (0, 0, 0).
