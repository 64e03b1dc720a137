/**
 * `Building`, the base of cities and silos: a position and the blast test
 * `isHit`.  The vector length is floating-point numerics and is passed in.
 */
module Buildings {
  import opened Linalg

  /** A city: a building with nothing but its position. */
  datatype City = City(pos: Vec3)

  /** `isHit`: the missile position lies within `radius` of the building's centre. */
  function IsHit(length: Vec3 -> real, centre: Vec3, missilePos: Vec3, radius: real): (b: bool)
    // hit exactly when the distance to the centre is at most the blast radius
    ensures b ==> length(Sub(missilePos, centre)) <= radius
    ensures !b ==> length(Sub(missilePos, centre)) > radius
    // a blast of negative radius hits nothing, lengths being non-negative
    ensures radius < 0.0 && length(Sub(missilePos, centre)) >= 0.0 ==> !b
  {
    length(Sub(missilePos, centre)) <= radius
  }
}
