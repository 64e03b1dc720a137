/**
 * A missile: a start position, a current position, a velocity, a trail
 * colour and the height at which it arrives.
 */
module Missiles {
  import opened Linalg

  /**
   * `hasReachedDestination` on values: an upward missile has arrived once it
   * is at or above `destY`; any other missile once it is below `destY`.
   */
  function Reached(p: Vec3, v: Vec3, destY: real): (b: bool)
    // exactly at the destination height only an upward missile has arrived
    ensures p.y == destY ==> (b <==> v.y > 0.0)
  {
    if v.y > 0.0 then p.y >= destY else p.y < destY
  }

  /**
   * Moving forward in time never undoes an arrival, whichever way the
   * missile flies.
   */
  lemma ArrivalPersists(p: Vec3, v: Vec3, destY: real, dt: real)
    requires dt >= 0.0 && Reached(p, v, destY)
    ensures Reached(Add(p, Scale(dt, v)), v, destY)
  {
    if v.y > 0.0 {
      ProductNonNeg(dt, v.y);
    } else {
      ProductNonNeg(dt, -v.y);
      assert dt * v.y == -(dt * -v.y);
    }
  }

  class Missile {
    const pos0: Vec3
    var pos1: Vec3
    const velocity: Vec3
    const colour: Vec3
    const destY: real

    /** Start and current position are both `p`. */
    constructor (p: Vec3, v: Vec3, y: real, c: Vec3)
      ensures pos0 == p && pos1 == p && velocity == v && destY == y && colour == c
    {
      pos0 := p;
      pos1 := p;
      velocity := v;
      colour := c;
      destY := y;
    }

    /** `move`: advance the current position by `deltaT` times the velocity. */
    method Move(deltaT: real)
      modifies this
      ensures pos1 == Add(old(pos1), Scale(deltaT, velocity))
      ensures deltaT >= 0.0 && old(HasReachedDestination()) ==> HasReachedDestination()
    {
      ghost var before := pos1;
      pos1 := Add(pos1, Scale(deltaT, velocity));
      if deltaT >= 0.0 && Reached(before, velocity, destY) {
        ArrivalPersists(before, velocity, destY, deltaT);
      }
    }

    /** `position`: the current position. */
    function Position(): (p: Vec3)
      reads this
      ensures p == pos1
    {
      pos1
    }

    /** `hasReachedDestination`: the arrival test on the current position. */
    function HasReachedDestination(): (b: bool)
      reads this
      ensures b <==> Reached(pos1, velocity, destY)
    {
      Reached(pos1, velocity, destY)
    }
  }
}
