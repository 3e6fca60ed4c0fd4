/** The shading record of one scene object (src/material.h) and the colour
    value it holds. */
module Materials {

  /** An RGB colour. The colour type's own header is not part of this model:
      its channels are kept as plain integers and its arithmetic operators are
      supplied to the renderer as a parameter. */
  datatype Color = Color(r: int, g: int, b: int)

  /** Per-object shading parameters. The renderer reads only `diffuse`; the
      other three fields are carried but never used. */
  datatype Material = Material(
    diffuse: Color,
    albedo: real,
    specularAlbedo: real,
    specularCoefficient: real)
}
