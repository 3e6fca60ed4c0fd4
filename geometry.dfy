/** The value types the renderer takes from headers that are not part of this
    model (the vector library, object.h, sphere.h, light.h). Only their shape
    is given here; their behaviour enters the renderer as parameters. */
module Geometry {
  import opened Materials

  datatype Option<T> = None | Some(value: T)

  /** A 3-vector with exact real components in place of single floats. */
  datatype Vec3 = Vec3(x: real, y: real, z: real)

  /** The dot product of two vectors. */
  function Dot(a: Vec3, b: Vec3): real
  {
    a.x * b.x + a.y * b.y + a.z * b.z
  }

  /** What one object's ray test reports. `dist`, `point` and `normal` mean
      something only when `isIntersecting` holds. */
  datatype Intersect = Intersect(isIntersecting: bool, dist: real, point: Vec3, normal: Vec3)

  /** A default-constructed `Intersect`. Its definition lives in object.h,
      which is not part of this model; the renderer's background test relies
      on it not reporting a hit, and this model takes that as given. */
  const NoHit: Intersect := Intersect(false, 0.0, Vec3(0.0, 0.0, 0.0), Vec3(0.0, 0.0, 0.0))

  /** The one kind of scene object, with the material it owns. */
  datatype Sphere = Sphere(center: Vec3, radius: real, material: Material)

  /** The single light: a (normalised) direction kept in `position`, and a
      scalar intensity. */
  datatype Light = Light(position: Vec3, intensity: real)

  /** `object->rayIntersect(origin, direction)`: the ray test of one object. */
  type RayIntersectFn = (Sphere, Vec3, Vec3) -> Intersect

  /** `color * factor`: the colour type's scaling operator. */
  type ScaleFn = (Color, real) -> Color

  /** What the per-pixel cast uses besides the object list: the global light
      and the two operations whose code is not part of this model. */
  datatype Context = Context(light: Light, rayIntersect: RayIntersectFn, scale: ScaleFn)
}
