/**
 * A missile silo: a building that is alive or destroyed and holds a number
 * of rounds.
 */
module Silos {
  import opened Linalg
  import Buildings

  /** Rounds in a new silo. */
  const InitialRounds: int := 15

  class Silo {
    const pos: Vec3
    var alive: bool
    var roundsLeft: int

    /** A destroyed silo has no rounds left. */
    predicate Valid()
      reads this
    {
      !alive ==> roundsLeft <= 0
    }

    /** A new silo stands at `p`, alive, with 15 rounds. */
    constructor (p: Vec3)
      ensures pos == p && alive && roundsLeft == InitialRounds
      ensures Valid()
    {
      pos := p;
      alive := true;
      roundsLeft := InitialRounds;
    }

    /** `destroy`: the silo is dead and empty, so a second call changes nothing. */
    method Destroy()
      modifies this
      ensures !alive && roundsLeft == 0
      ensures !CanShoot() && Valid()
    {
      alive := false;
      roundsLeft := 0;
    }

    /** `canShoot`: rounds are left; a valid silo that can shoot is alive. */
    function CanShoot(): (b: bool)
      reads this
      ensures b <==> roundsLeft > 0
      ensures Valid() && b ==> alive
    {
      roundsLeft > 0
    }

    /** `isAlive`: a valid dead silo cannot shoot. */
    function IsAlive(): (b: bool)
      reads this
      ensures Valid() && !b ==> !CanShoot()
    {
      alive
    }

    /** `decrMissiles`: one round fewer, with no guard of its own; nothing else changes. */
    method DecrMissiles()
      modifies this
      ensures roundsLeft == old(roundsLeft) - 1
      ensures alive == old(alive)
      ensures old(Valid()) ==> Valid()
    {
      roundsLeft := roundsLeft - 1;
    }

    /** `position`: where the silo was built. */
    function Position(): (p: Vec3)
      ensures p == pos
    {
      pos
    }

    /** `isHit` inherited from `Building`. */
    function IsHit(length: Vec3 -> real, missilePos: Vec3, radius: real): (b: bool)
      ensures b <==> Buildings.IsHit(length, pos, missilePos, radius)
    {
      Buildings.IsHit(length, pos, missilePos, radius)
    }
  }
}
