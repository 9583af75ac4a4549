/** Patient-space vectors, with positions and direction cosines as exact reals
    in place of the source's floating-point numpy arrays. */
module Geometry {

  datatype Vec3 = Vec3(x: real, y: real, z: real)

  /** ImageOrientationPatient: `orientation[0:3]` and `orientation[3:6]`. */
  datatype Orientation = Orientation(row: Vec3, col: Vec3)

  function Sub(a: Vec3, b: Vec3): Vec3
  {
    Vec3(a.x - b.x, a.y - b.y, a.z - b.z)
  }

  function Dot(a: Vec3, b: Vec3): real
  {
    a.x * b.x + a.y * b.y + a.z * b.z
  }

  function Cross(a: Vec3, b: Vec3): Vec3
  {
    Vec3(a.y * b.z - a.z * b.y, a.z * b.x - a.x * b.z, a.x * b.y - a.y * b.x)
  }

  /** The slice normal `np.cross(row0, row1)`: perpendicular to both direction
      cosines, and unchanged by swapping their order only up to sign. */
  function Normal(o: Orientation): (n: Vec3)
    ensures Dot(n, o.row) == 0.0 && Dot(n, o.col) == 0.0
    ensures Cross(o.col, o.row) == Vec3(-n.x, -n.y, -n.z)
  {
    Cross(o.row, o.col)
  }
}
