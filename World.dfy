/** World coordinates, as World::Pos2 and World::Pos3 (coord_t is int16_t). */
module World {
  import opened Ints

  datatype Pos2 = Pos2(x: Int16, y: Int16)

  datatype Pos3 = Pos3(x: Int16, y: Int16, z: Int16)

  /** A value-initialised Pos2, written `{}` in C++. */
  const ORIGIN2: Pos2 := Pos2(0, 0)
}
