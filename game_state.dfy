/**
 * The missile-defence game's world (`State`): silos, cities, incoming and
 * outgoing missiles and explosions, with `setupWorld`, `fireMissile` and
 * `updateState`.  The explosion circles' own geometry (`Circle` is not part
 * of this model) and the vector length and normalisation are passed in as
 * `Physics`; the random draws of `updateState` are parameters.
 */
module Game {
  import opened Linalg
  import opened Removal
  import opened Buildings
  import opened Silos
  import opened Missiles

  /** An explosion as built by `Circle(position, 0.07, 0.05, colour)`. */
  datatype Circle = Circle(centre: Vec3, size1: real, size2: real, colour: Vec3)

  datatype Physics = Physics(
    length: Vec3 -> real,
    normalize: Vec3 -> Vec3,
    /** Circle::position, radius, maxRadius and expand. */
    position: Circle -> Vec3,
    radius: Circle -> real,
    maxRadius: Circle -> real,
    expand: (Circle, real) -> Circle)

  const IncomingColour: Vec3 := Vec3(1.0, 0.5, 0.0)
  const OutgoingColour: Vec3 := Vec3(0.0, 0.5, 1.0)
  /** Explosion colours: light red for arriving incoming missiles, light blue for outgoing ones, red for chain reactions. */
  const IncomingBlastColour: Vec3 := Vec3(1.0, 0.5, 0.5)
  const OutgoingBlastColour: Vec3 := Vec3(0.5, 0.5, 1.0)
  const ChainBlastColour: Vec3 := Vec3(1.0, 0.0, 0.0)
  /** Speed of an outgoing missile. */
  const Speed: real := 0.3
  /** Seconds an incoming missile is given to arrive. */
  const IncomingFlightTime: real := 6.0

  function Blast(p: Vec3, colour: Vec3): Circle {
    Circle(p, 0.07, 0.05, colour)
  }

  /** One explosion per missile, at the missile's current position, in order. */
  function Blasts(ms: seq<Missile>, colour: Vec3): (r: seq<Circle>)
    reads set m | m in ms
    ensures |r| == |ms|
    ensures forall k | 0 <= k < |ms| :: r[k] == Blast(ms[k].pos1, colour)
  {
    BlastsAtSpec(PositionsOf(ms), ms, colour);
    BlastsAt(PositionsOf(ms), ms, colour)
  }

  /** Each missile paired with whether it has reached its destination. */
  function ArrivalTags(ms: seq<Missile>): (r: seq<Tagged<Missile>>)
    reads set m | m in ms
    ensures Items(r) == ms
    ensures forall k | 0 <= k < |ms| :: r[k] == Tagged(ms[k], ms[k].HasReachedDestination())
  {
    ArrivalTagsAtSpec(PositionsOf(ms), ms);
    ArrivalTagsAt(PositionsOf(ms), ms)
  }

  /** Each missile paired with whether it lies within the explosion `e`. */
  function BlastTags(ph: Physics, e: Circle, ms: seq<Missile>): (r: seq<Tagged<Missile>>)
    reads set m | m in ms
    ensures Items(r) == ms
    ensures forall k | 0 <= k < |ms| :: r[k] == Tagged(ms[k], InBlast(ph, e, ms[k].pos1))
  {
    BlastTagsAtSpec(ph, e, PositionsOf(ms), ms);
    BlastTagsAt(ph, e, PositionsOf(ms), ms)
  }

  /** Each city paired with whether the explosion `e` hits it. */
  function CityTags(ph: Physics, e: Circle, cs: seq<City>): (r: seq<Tagged<City>>)
    ensures Items(r) == cs
    ensures forall k | 0 <= k < |cs| :: r[k] == Tagged(cs[k], IsHit(ph.length, cs[k].pos, ph.position(e), ph.radius(e)))
  {
    if |cs| == 0 then [] else
      var rest := CityTags(ph, e, cs[1..]);
      var t := [Tagged(cs[0], IsHit(ph.length, cs[0].pos, ph.position(e), ph.radius(e)))] + rest;
      assert forall k | 1 <= k < |cs| :: t[k] == rest[k - 1] && cs[k] == cs[1..][k - 1];
      assert t[1..] == rest;
      t
  }

  /** The missile test of the chain reaction: distance to the explosion's centre at most its radius. */
  predicate InBlast(ph: Physics, e: Circle, p: Vec3) {
    ph.length(Sub(p, ph.position(e))) <= ph.radius(e)
  }

  /** No explosion in `es` has reached its maximum radius. */
  ghost predicate BelowMaximum(ph: Physics, es: seq<Circle>) {
    forall k | 0 <= k < |es| :: ph.radius(es[k]) < ph.maxRadius(es[k])
  }

  lemma BelowMaximumExtend(ph: Physics, es: seq<Circle>, c: Circle)
    requires BelowMaximum(ph, es) && ph.radius(c) < ph.maxRadius(c)
    ensures BelowMaximum(ph, es + [c])
  {
  }

  /** Explosion `e` reaches silo `s`. */
  predicate SiloHitBy(ph: Physics, s: Silo, e: Circle) {
    s.IsHit(ph.length, ph.position(e), ph.radius(e))
  }

  /** Some explosion of `es` reaches silo `s`. */
  predicate HitByAny(ph: Physics, s: Silo, es: seq<Circle>) {
    exists k | 0 <= k < |es| :: SiloHitBy(ph, s, es[k])
  }

  lemma HitByAnyExtend(ph: Physics, s: Silo, es: seq<Circle>, e: Circle)
    ensures HitByAny(ph, s, es + [e]) <==> HitByAny(ph, s, es) || SiloHitBy(ph, s, e)
  {
    if HitByAny(ph, s, es) {
      var k :| 0 <= k < |es| && SiloHitBy(ph, s, es[k]);
      assert (es + [e])[k] == es[k];
    }
    if SiloHitBy(ph, s, e) {
      assert (es + [e])[|es|] == e;
    }
    if HitByAny(ph, s, es + [e]) {
      var k :| 0 <= k < |es| + 1 && SiloHitBy(ph, s, (es + [e])[k]);
      if k < |es| {
        assert (es + [e])[k] == es[k];
      }
    }
  }

  /** A silo that explosion `e` reaches is destroyed; any other silo is left as it was. */
  twostate predicate DestroyedIfHitBy(ph: Physics, s: Silo, e: Circle)
    reads s
  {
    if SiloHitBy(ph, s, e) then !s.alive && s.roundsLeft == 0
    else s.alive == old(s.alive) && s.roundsLeft == old(s.roundsLeft)
  }

  /** A silo that some explosion of `es` reaches is destroyed; any other silo is left as it was. */
  twostate predicate DestroyedIfHit(ph: Physics, s: Silo, es: seq<Circle>)
    reads s
  {
    if HitByAny(ph, s, es) then !s.alive && s.roundsLeft == 0
    else s.alive == old(s.alive) && s.roundsLeft == old(s.roundsLeft)
  }

  /** The map `at` records a position for every missile of `ms`. */
  predicate Covers(at: map<Missile, Vec3>, ms: seq<Missile>) {
    forall m | m in ms :: m in at
  }

  /** The positions recorded in `at` are where the missiles of `ms` are now. */
  ghost predicate AtPositions(at: map<Missile, Vec3>, ms: seq<Missile>)
    reads set m | m in ms
  {
    forall m | m in ms :: m in at && at[m] == m.pos1
  }

  /** The current positions of the missiles of `ms`. */
  function PositionsOf(ms: seq<Missile>): (at: map<Missile, Vec3>)
    reads set m | m in ms
    ensures AtPositions(at, ms)
  {
    map m | m in ms :: m.pos1
  }

  /** `ArrivalTags` with the missiles at the recorded positions `at`. */
  function ArrivalTagsAt(at: map<Missile, Vec3>, ms: seq<Missile>): (r: seq<Tagged<Missile>>)
    requires Covers(at, ms)
    ensures Items(r) == ms
  {
    if |ms| == 0 then [] else
      assert ms[0] in ms;
      var t := [Tagged(ms[0], Reached(at[ms[0]], ms[0].velocity, ms[0].destY))] + ArrivalTagsAt(at, ms[1..]);
      assert t[1..] == ArrivalTagsAt(at, ms[1..]);
      assert ms == [ms[0]] + ms[1..];
      t
  }

  /** Each missile is tagged, in order, with whether it had arrived at its recorded position. */
  lemma {:induction false} ArrivalTagsAtSpec(at: map<Missile, Vec3>, ms: seq<Missile>)
    requires Covers(at, ms)
    ensures |ArrivalTagsAt(at, ms)| == |ms|
    ensures forall k | 0 <= k < |ms| ::
      ArrivalTagsAt(at, ms)[k] == Tagged(ms[k], Reached(at[ms[k]], ms[k].velocity, ms[k].destY))
  {
    if |ms| > 0 {
      ArrivalTagsAtSpec(at, ms[1..]);
      var rest := ArrivalTagsAt(at, ms[1..]);
      var t := ArrivalTagsAt(at, ms);
      assert t == [Tagged(ms[0], Reached(at[ms[0]], ms[0].velocity, ms[0].destY))] + rest;
      assert forall k | 1 <= k < |ms| :: t[k] == rest[k - 1] && ms[k] == ms[1..][k - 1];
      assert t[1..] == rest;
      assert ms == [ms[0]] + ms[1..];
    }
  }

  /** `BlastTags` with the missiles at the recorded positions `at`. */
  function BlastTagsAt(ph: Physics, e: Circle, at: map<Missile, Vec3>, ms: seq<Missile>): (r: seq<Tagged<Missile>>)
    requires Covers(at, ms)
    ensures Items(r) == ms
  {
    if |ms| == 0 then [] else
      assert ms[0] in ms;
      var t := [Tagged(ms[0], InBlast(ph, e, at[ms[0]]))] + BlastTagsAt(ph, e, at, ms[1..]);
      assert t[1..] == BlastTagsAt(ph, e, at, ms[1..]);
      assert ms == [ms[0]] + ms[1..];
      t
  }

  /** Each missile is tagged, in order, with whether the explosion reaches its recorded position. */
  lemma {:induction false} BlastTagsAtSpec(ph: Physics, e: Circle, at: map<Missile, Vec3>, ms: seq<Missile>)
    requires Covers(at, ms)
    ensures |BlastTagsAt(ph, e, at, ms)| == |ms|
    ensures forall k | 0 <= k < |ms| :: BlastTagsAt(ph, e, at, ms)[k] == Tagged(ms[k], InBlast(ph, e, at[ms[k]]))
  {
    if |ms| > 0 {
      BlastTagsAtSpec(ph, e, at, ms[1..]);
      var rest := BlastTagsAt(ph, e, at, ms[1..]);
      var t := BlastTagsAt(ph, e, at, ms);
      assert t == [Tagged(ms[0], InBlast(ph, e, at[ms[0]]))] + rest;
      assert forall k | 1 <= k < |ms| :: t[k] == rest[k - 1] && ms[k] == ms[1..][k - 1];
      assert t[1..] == rest;
      assert ms == [ms[0]] + ms[1..];
    }
  }

  /** `Blasts` with the missiles at the recorded positions `at`. */
  function BlastsAt(at: map<Missile, Vec3>, ms: seq<Missile>, colour: Vec3): (r: seq<Circle>)
    requires Covers(at, ms)
    ensures |r| == |ms|
  {
    if |ms| == 0 then [] else BlastsAt(at, ms[..|ms| - 1], colour) + [Blast(at[ms[|ms| - 1]], colour)]
  }

  /** One explosion of `colour` per missile, in order, each at the missile's recorded position. */
  lemma {:induction false} BlastsAtSpec(at: map<Missile, Vec3>, ms: seq<Missile>, colour: Vec3)
    requires Covers(at, ms)
    ensures forall k | 0 <= k < |ms| :: BlastsAt(at, ms, colour)[k] == Blast(at[ms[k]], colour)
  {
    if |ms| > 0 {
      BlastsAtSpec(at, ms[..|ms| - 1], colour);
    }
  }

  lemma ArrivalTagsNow(at: map<Missile, Vec3>, ms: seq<Missile>)
    requires AtPositions(at, ms)
    ensures ArrivalTags(ms) == ArrivalTagsAt(at, ms)
  {
    assert |ArrivalTags(ms)| == |Items(ArrivalTags(ms))|;
    assert |ArrivalTagsAt(at, ms)| == |Items(ArrivalTagsAt(at, ms))|;
  }

  lemma BlastTagsNow(ph: Physics, e: Circle, at: map<Missile, Vec3>, ms: seq<Missile>)
    requires AtPositions(at, ms)
    ensures BlastTags(ph, e, ms) == BlastTagsAt(ph, e, at, ms)
  {
    assert |BlastTags(ph, e, ms)| == |Items(BlastTags(ph, e, ms))|;
    assert |BlastTagsAt(ph, e, at, ms)| == |Items(BlastTagsAt(ph, e, at, ms))|;
  }

  lemma BlastsNow(at: map<Missile, Vec3>, ms: seq<Missile>, colour: Vec3)
    requires AtPositions(at, ms)
    ensures Blasts(ms, colour) == BlastsAt(at, ms, colour)
  {
  }

  /** The cities and incoming missiles left, and the chain-reaction explosions added, by the explosion loop. */
  datatype Aftermath = Aftermath(cities: seq<City>, missilesIn: seq<Missile>, chain: seq<Circle>)

  /**
   * What the body of the explosion loop of `updateState` (lines 97-126)
   * leaves after it has run for the explosions `es` in turn, starting from
   * the cities `cs` and the incoming missiles `ms` at positions `at`: each
   * explosion removes the cities and missiles it reaches, with the skip of
   * the loops that do not step back, and each removed missile adds a red
   * explosion to the chain.
   */
  function Cascade(ph: Physics, at: map<Missile, Vec3>, cs: seq<City>, ms: seq<Missile>, es: seq<Circle>): (r: Aftermath)
    requires Covers(at, ms)
    ensures forall m | m in r.missilesIn :: m in ms
    decreases |es|
  {
    if |es| == 0 then Aftermath(cs, ms, [])
    else
      var before := Cascade(ph, at, cs, ms, es[..|es| - 1]);
      var e := es[|es| - 1];
      var split := SkipRemove(BlastTagsAt(ph, e, at, before.missilesIn));
      Aftermath(SkipRemove(CityTags(ph, e, before.cities)).kept, split.kept,
                before.chain + BlastsAt(at, split.removed, ChainBlastColour))
  }

  /** One more explosion visited: its effects on what the earlier ones left. */
  lemma CascadeStep(ph: Physics, at: map<Missile, Vec3>, cs: seq<City>, ms: seq<Missile>, es: seq<Circle>, e: Circle)
    requires Covers(at, ms)
    ensures var before := Cascade(ph, at, cs, ms, es);
      var split := SkipRemove(BlastTagsAt(ph, e, at, before.missilesIn));
      Cascade(ph, at, cs, ms, es + [e])
        == Aftermath(SkipRemove(CityTags(ph, e, before.cities)).kept, split.kept,
                     before.chain + BlastsAt(at, split.removed, ChainBlastColour))
  {
    assert (es + [e])[..|es|] == es;
  }

  /**
   * One visit of the explosion loop carries the cascade one explosion
   * further: the cities `cs` and missiles `ms` the visited explosions left
   * become the cities `cs'` and missiles `ms'` that `e` leaves, and the
   * chain grows by the explosions `chain` of the missiles `e` destroys.
   */
  lemma VisitStep(ph: Physics, at: map<Missile, Vec3>, cs0: seq<City>, ms0: seq<Missile>,
                  visited: seq<Circle>, e: Circle, cs: seq<City>, ms: seq<Missile>,
                  cs': seq<City>, ms': seq<Missile>, chain: seq<Circle>)
    requires Covers(at, ms0)
    requires cs == Cascade(ph, at, cs0, ms0, visited).cities && ms == Cascade(ph, at, cs0, ms0, visited).missilesIn
    requires Covers(at, ms)
    requires cs' == SkipRemove(CityTags(ph, e, cs)).kept && ms' == SkipRemove(BlastTagsAt(ph, e, at, ms)).kept
    requires chain == BlastsAt(at, SkipRemove(BlastTagsAt(ph, e, at, ms)).removed, ChainBlastColour)
    ensures cs' == Cascade(ph, at, cs0, ms0, visited + [e]).cities
    ensures ms' == Cascade(ph, at, cs0, ms0, visited + [e]).missilesIn
    ensures Cascade(ph, at, cs0, ms0, visited + [e]).chain == Cascade(ph, at, cs0, ms0, visited).chain + chain
  {
    CascadeStep(ph, at, cs0, ms0, visited, e);
  }

  /**
   * The explosions `visited` after the first ones `es0` were each produced
   * before they were visited: the k-th visit falls within the explosions
   * that `es0` and the chain of the first k visits make up.
   */
  ghost predicate Caused(ph: Physics, at: map<Missile, Vec3>, cs0: seq<City>, ms0: seq<Missile>,
                         es0: seq<Circle>, visited: seq<Circle>)
    requires Covers(at, ms0)
  {
    forall k | 0 <= k < |visited| :: k < Produced(ph, at, cs0, ms0, es0, visited, k)
  }

  /** How many explosions the loop has seen when it comes to its k-th visit. */
  ghost function Produced(ph: Physics, at: map<Missile, Vec3>, cs0: seq<City>, ms0: seq<Missile>,
                          es0: seq<Circle>, visited: seq<Circle>, k: nat): nat
    requires Covers(at, ms0) && k <= |visited|
  {
    |es0| + |Cascade(ph, at, cs0, ms0, visited[..k]).chain|
  }

  /** A visit that stays within the explosions produced so far keeps the visits caused. */
  lemma CausedExtend(ph: Physics, at: map<Missile, Vec3>, cs0: seq<City>, ms0: seq<Missile>,
                     es0: seq<Circle>, visited: seq<Circle>, e: Circle)
    requires Covers(at, ms0) && Caused(ph, at, cs0, ms0, es0, visited)
    requires |visited| < |es0| + |Cascade(ph, at, cs0, ms0, visited).chain|
    ensures Caused(ph, at, cs0, ms0, es0, visited + [e])
  {
    var v := visited + [e];
    forall k | 0 <= k < |v|
      ensures k < Produced(ph, at, cs0, ms0, es0, v, k)
    {
      ProducedSnoc(ph, at, cs0, ms0, es0, visited, e, k);
    }
  }

  /** Appending a visit does not change what the earlier visits had seen. */
  lemma ProducedSnoc(ph: Physics, at: map<Missile, Vec3>, cs0: seq<City>, ms0: seq<Missile>,
                     es0: seq<Circle>, visited: seq<Circle>, e: Circle, k: nat)
    requires Covers(at, ms0) && k <= |visited|
    ensures Produced(ph, at, cs0, ms0, es0, visited + [e], k) == Produced(ph, at, cs0, ms0, es0, visited, k)
    ensures k == |visited| ==> Produced(ph, at, cs0, ms0, es0, visited, k) == |es0| + |Cascade(ph, at, cs0, ms0, visited).chain|
  {
    assert (visited + [e])[..k] == visited[..k];
    if k == |visited| {
      assert visited[..k] == visited;
    }
  }

  /** The chain of the first j visits is a prefix of the chain of all of them. */
  lemma {:induction false} ChainGrows(ph: Physics, at: map<Missile, Vec3>, cs: seq<City>, ms: seq<Missile>,
                                      es: seq<Circle>, j: nat, x: nat)
    requires Covers(at, ms) && j <= |es|
    requires x < |Cascade(ph, at, cs, ms, es[..j]).chain|
    ensures x < |Cascade(ph, at, cs, ms, es).chain|
    ensures Cascade(ph, at, cs, ms, es).chain[x] == Cascade(ph, at, cs, ms, es[..j]).chain[x]
    decreases |es|
  {
    if j < |es| {
      var init := es[..|es| - 1];
      assert init[..j] == es[..j];
      ChainGrows(ph, at, cs, ms, init, j, x);
    } else {
      assert es[..j] == es;
    }
  }

  /** A caused visit is fixed by the visits before it: it is the explosion at its index in what they produced. */
  lemma VisitFromPrefix(ph: Physics, at: map<Missile, Vec3>, cs0: seq<City>, ms0: seq<Missile>,
                        es0: seq<Circle>, v: seq<Circle>, j: nat)
    requires Covers(at, ms0) && v == es0 + Cascade(ph, at, cs0, ms0, v).chain
    requires j < |v| && j < Produced(ph, at, cs0, ms0, es0, v, j)
    ensures j < |es0| ==> v[j] == es0[j]
    ensures j >= |es0| ==>
      j - |es0| < |Cascade(ph, at, cs0, ms0, v[..j]).chain|
      && v[j] == Cascade(ph, at, cs0, ms0, v[..j]).chain[j - |es0|]
  {
    if j >= |es0| {
      ChainGrows(ph, at, cs0, ms0, v, j, j - |es0|);
      assert v[j] == Cascade(ph, at, cs0, ms0, v).chain[j - |es0|];
    }
  }

  /** Two caused solutions of the explosion-loop equation that agree on their first j visits agree on the next. */
  lemma AgreeAt(ph: Physics, at: map<Missile, Vec3>, cs0: seq<City>, ms0: seq<Missile>,
                es0: seq<Circle>, v: seq<Circle>, w: seq<Circle>, j: nat)
    requires Covers(at, ms0)
    requires v == es0 + Cascade(ph, at, cs0, ms0, v).chain && Caused(ph, at, cs0, ms0, es0, v)
    requires w == es0 + Cascade(ph, at, cs0, ms0, w).chain && Caused(ph, at, cs0, ms0, es0, w)
    requires j < |v| && j < |w| && v[..j] == w[..j]
    ensures v[j] == w[j]
  {
    assert j < Produced(ph, at, cs0, ms0, es0, v, j);
    assert j < Produced(ph, at, cs0, ms0, es0, w, j);
    VisitFromPrefix(ph, at, cs0, ms0, es0, v, j);
    VisitFromPrefix(ph, at, cs0, ms0, es0, w, j);
    assert Cascade(ph, at, cs0, ms0, v[..j]) == Cascade(ph, at, cs0, ms0, w[..j]);
  }

  /** Two sequences in which each element is fixed by the elements before it agree up to k. */
  lemma {:induction false} PrefixesAgree(v: seq<Circle>, w: seq<Circle>, k: nat)
    requires k <= |v| && k <= |w|
    requires forall j | 0 <= j < k && v[..j] == w[..j] :: v[j] == w[j]
    ensures v[..k] == w[..k]
  {
    if k > 0 {
      PrefixesAgree(v, w, k - 1);
      assert v[..k] == v[..k - 1] + [v[k - 1]];
      assert w[..k] == w[..k - 1] + [w[k - 1]];
    }
  }

  /** Two caused solutions of the explosion-loop equation agree on their first k visits. */
  lemma AgreeUpTo(ph: Physics, at: map<Missile, Vec3>, cs0: seq<City>, ms0: seq<Missile>,
                  es0: seq<Circle>, v: seq<Circle>, w: seq<Circle>, k: nat)
    requires Covers(at, ms0)
    requires v == es0 + Cascade(ph, at, cs0, ms0, v).chain && Caused(ph, at, cs0, ms0, es0, v)
    requires w == es0 + Cascade(ph, at, cs0, ms0, w).chain && Caused(ph, at, cs0, ms0, es0, w)
    requires k <= |v| && k <= |w|
    ensures v[..k] == w[..k]
  {
    forall j | 0 <= j < k && v[..j] == w[..j]
      ensures v[j] == w[j]
    {
      AgreeAt(ph, at, cs0, ms0, es0, v, w, j);
    }
    PrefixesAgree(v, w, k);
  }

  /** Once the loop has visited every explosion it produced, it has seen as many as it visited. */
  lemma ProducedAll(ph: Physics, at: map<Missile, Vec3>, cs0: seq<City>, ms0: seq<Missile>,
                    es0: seq<Circle>, v: seq<Circle>)
    requires Covers(at, ms0) && v == es0 + Cascade(ph, at, cs0, ms0, v).chain
    ensures Produced(ph, at, cs0, ms0, es0, v, |v|) == |v|
  {
    assert v[..|v|] == v;
  }

  /** Two visit orders that agree on their first k visits have seen the same explosions at the k-th. */
  lemma SameProduced(ph: Physics, at: map<Missile, Vec3>, cs0: seq<City>, ms0: seq<Missile>,
                     es0: seq<Circle>, v: seq<Circle>, w: seq<Circle>, k: nat)
    requires Covers(at, ms0) && k <= |v| && k <= |w| && v[..k] == w[..k]
    ensures Produced(ph, at, cs0, ms0, es0, v, k) == Produced(ph, at, cs0, ms0, es0, w, k)
  {
  }

  /** A caused solution of the explosion-loop equation is not a proper prefix of another. */
  lemma NotShorter(ph: Physics, at: map<Missile, Vec3>, cs0: seq<City>, ms0: seq<Missile>,
                   es0: seq<Circle>, v: seq<Circle>, w: seq<Circle>)
    requires Covers(at, ms0)
    requires v == es0 + Cascade(ph, at, cs0, ms0, v).chain && Caused(ph, at, cs0, ms0, es0, v)
    requires w == es0 + Cascade(ph, at, cs0, ms0, w).chain && Caused(ph, at, cs0, ms0, es0, w)
    ensures |w| <= |v|
  {
    ProducedAll(ph, at, cs0, ms0, es0, v);
    if |v| < |w| {
      AgreeUpTo(ph, at, cs0, ms0, es0, v, w, |v|);
      SameProduced(ph, at, cs0, ms0, es0, v, w, |v|);
      assert false;
    }
  }

  /**
   * The visited explosions are determined by where the loop started: at most
   * one sequence is both the initial explosions followed by the chain it
   * produces and caused visit by visit.
   */
  lemma {:induction false} VisitedUnique(ph: Physics, at: map<Missile, Vec3>, cs0: seq<City>, ms0: seq<Missile>,
                                         es0: seq<Circle>, v: seq<Circle>, w: seq<Circle>)
    requires Covers(at, ms0)
    requires v == es0 + Cascade(ph, at, cs0, ms0, v).chain && Caused(ph, at, cs0, ms0, es0, v)
    requires w == es0 + Cascade(ph, at, cs0, ms0, w).chain && Caused(ph, at, cs0, ms0, es0, w)
    ensures v == w
  {
    NotShorter(ph, at, cs0, ms0, es0, v, w);
    NotShorter(ph, at, cs0, ms0, es0, w, v);
    AgreeUpTo(ph, at, cs0, ms0, es0, v, w, |v|);
    assert v == v[..|v|] && w == w[..|w|];
  }

  /** The explosions the loop keeps: those still below their maximum radius, in order. */
  function Unexpired(ph: Physics, es: seq<Circle>): (r: seq<Circle>)
    ensures BelowMaximum(ph, r)
    ensures |r| <= |es|
  {
    if |es| == 0 then []
    else
      var e := es[|es| - 1];
      Unexpired(ph, es[..|es| - 1]) + (if ph.radius(e) < ph.maxRadius(e) then [e] else [])
  }

  /** `Unexpired` over one more explosion. */
  lemma UnexpiredSnoc(ph: Physics, es: seq<Circle>, e: Circle)
    ensures Unexpired(ph, es + [e]) == Unexpired(ph, es) + (if ph.radius(e) < ph.maxRadius(e) then [e] else [])
  {
    assert (es + [e])[..|es|] == es;
  }

  /**
   * One visit of the explosion loop at index i, on the worklist `E`: the
   * first i explosions are the kept ones among those visited, and the visited
   * ones followed by the rest of the list are the starting explosions `es0`
   * and the chain-reaction explosions `done` added so far.  After the visit
   * appends `chain` and removes the visited explosion when it is full size
   * (stepping back) or moves on, giving `E'` and the index `next`, the same
   * holds with one more explosion visited.
   */
  lemma WorklistStep(ph: Physics, E: seq<Circle>, i: nat, chain: seq<Circle>, visited: seq<Circle>,
                     es0: seq<Circle>, done: seq<Circle>, E': seq<Circle>, next: nat)
    requires i < |E| && E[..i] == Unexpired(ph, visited) && visited + E[i..] == es0 + done
    requires ph.radius(E[i]) >= ph.maxRadius(E[i]) ==> next == i && E' == (E + chain)[..i] + (E + chain)[i + 1..]
    requires ph.radius(E[i]) < ph.maxRadius(E[i]) ==> next == i + 1 && E' == E + chain
    ensures next <= |E'|
    ensures E'[..next] == Unexpired(ph, visited + [E[i]])
    ensures (visited + [E[i]]) + E'[next..] == es0 + (done + chain)
  {
    var e := E[i];
    UnexpiredSnoc(ph, visited, e);
    assert E[i..] == [e] + E[i + 1..];
    assert (visited + [e]) + (E[i + 1..] + chain) == visited + E[i..] + chain;
    assert visited + E[i..] + chain == es0 + (done + chain);
    if ph.radius(e) >= ph.maxRadius(e) {
      WorklistDrop(E, i, chain, E');
    } else {
      WorklistKeep(E, i, chain, E');
    }
  }

  /** Removing the visited explosion at i from the grown list. */
  lemma WorklistDrop(E: seq<Circle>, i: nat, chain: seq<Circle>, E': seq<Circle>)
    requires i < |E| && E' == (E + chain)[..i] + (E + chain)[i + 1..]
    ensures i <= |E'| && E'[..i] == E[..i] && E'[i..] == E[i + 1..] + chain
  {
  }

  /** Keeping the visited explosion at i in the grown list. */
  lemma WorklistKeep(E: seq<Circle>, i: nat, chain: seq<Circle>, E': seq<Circle>)
    requires i < |E| && E' == E + chain
    ensures i + 1 <= |E'| && E'[..i + 1] == E[..i] + [E[i]] && E'[i + 1..] == E[i + 1..] + chain
  {
  }

  /** Adding a missile that did not exist before keeps the containers free of repeats. */
  lemma DistinctWithNew(a: seq<Missile>, b: seq<Missile>, m: Missile)
    requires Distinct(a + b) && m !in a + b
    ensures Distinct(a + [m] + b)
  {
    DistinctCounts(a + b);
    assert multiset(a + [m] + b) == multiset(a + b) + multiset{m};
    DistinctCounts(a + [m] + b);
  }

  /** No missile left after the arrival loop has reached its destination. */
  lemma SurvivorsNotArrived(at: map<Missile, Vec3>, ms: seq<Missile>)
    requires Covers(at, ms)
    ensures forall m | m in Misses(ArrivalTagsAt(at, ms)) :: m in at && !Reached(at[m], m.velocity, m.destY)
  {
    var tags := ArrivalTagsAt(at, ms);
    ArrivalTagsAtSpec(at, ms);
    forall m | m in Misses(tags)
      ensures m in at && !Reached(at[m], m.velocity, m.destY)
    {
      MissesAreUnflagged(tags, m);
      var k :| 0 <= k < |tags| && tags[k].item == m && !tags[k].hit;
      assert |tags| == |Items(tags)|;
    }
  }

  /**
   * The arrival filter of `updateState` (lines 74-90) on one container `ms`,
   * whose missiles are at `at`: the survivors, in order, and one explosion of
   * `colour` per arrived missile, at its position, in the order of removal.
   */
  method SortArrivals(ms: seq<Missile>, ghost at: map<Missile, Vec3>, colour: Vec3,
                      ghost others: seq<Missile>, ghost othersFirst: bool)
    returns (kept: seq<Missile>, booms: seq<Circle>)
    requires AtPositions(at, ms)
    requires if othersFirst then Distinct(others + ms) else Distinct(ms + others)
    ensures kept == Misses(ArrivalTagsAt(at, ms))
    ensures booms == BlastsAt(at, Hits(ArrivalTagsAt(at, ms)), colour)
    ensures if othersFirst then Distinct(others + kept) else Distinct(kept + others)
    ensures AtPositions(at, kept)
  {
    var tags := ArrivalTags(ms);
    ArrivalTagsNow(at, ms);
    booms := Blasts(Hits(tags), colour);
    BlastsNow(at, Hits(tags), colour);
    var removed;
    kept, removed := RemoveWithStepBack(tags);
    FilterPartition(tags);
    assert forall m | m in kept :: m in ms by {
      forall m | m in kept ensures m in ms {
        assert m in multiset(kept);
      }
    }
    if othersFirst {
      DistinctOfParts(others, ms, others, kept);
    } else {
      DistinctOfParts(ms, others, kept, others);
    }
  }

  /**
   * The arrival and damage phases add no missile: every incoming missile
   * that survives them was in the container before.
   */
  lemma CascadeAddsNoMissile(ph: Physics, at: map<Missile, Vec3>, cs: seq<City>, ms: seq<Missile>, es: seq<Circle>)
    requires Covers(at, ms)
    ensures Covers(at, Misses(ArrivalTagsAt(at, ms)))
    ensures forall m | m in Cascade(ph, at, cs, Misses(ArrivalTagsAt(at, ms)), es).missilesIn :: m in ms
  {
    SurvivorsNotArrived(at, ms);
  }

  /** Keeping part of each of two containers without repeats keeps them without repeats. */
  lemma DistinctOfParts(a: seq<Missile>, b: seq<Missile>, a': seq<Missile>, b': seq<Missile>)
    requires Distinct(a + b) && multiset(a') <= multiset(a) && multiset(b') <= multiset(b)
    ensures Distinct(a' + b')
  {
    assert multiset(a' + b') <= multiset(a + b);
    DistinctSub(a' + b', a + b);
  }

  /** Moving every missile of a container once (`for (...) m[i].move(deltaT)`). */
  method MoveAll(ms: seq<Missile>, deltaT: real)
    requires Distinct(ms)
    modifies set m | m in ms
    ensures forall k | 0 <= k < |ms| :: ms[k].pos1 == Add(old(ms[k].pos1), Scale(deltaT, ms[k].velocity))
  {
    DistinctIndices(ms);
    var i := 0;
    while i < |ms|
      invariant 0 <= i <= |ms|
      invariant forall k | 0 <= k < i :: ms[k].pos1 == Add(old(ms[k].pos1), Scale(deltaT, ms[k].velocity))
      invariant forall k | i <= k < |ms| :: ms[k].pos1 == old(ms[k].pos1)
    {
      ms[i].Move(deltaT);
      i := i + 1;
    }
  }

  class State {
    const worldTop: real
    const ph: Physics
    var currentTime: real
    var timeOfIncomingFlight: real
    var silos: seq<Silo>
    var cities: seq<City>
    var missilesIn: seq<Missile>
    var missilesOut: seq<Missile>
    var explosions: seq<Circle>

    ghost function SiloSet(): set<Silo>
      reads this
    {
      set s | s in silos
    }

    ghost function MissileSet(): set<Missile>
      reads this
    {
      set m | m in missilesIn + missilesOut
    }

    /**
     * Each missile and each silo is one object, held once (the containers
     * hold them by value), and every silo is valid.
     */
    ghost predicate Valid()
      reads this, SiloSet()
    {
      Distinct(missilesIn + missilesOut) && Distinct(silos) && SilosValid()
    }

    ghost predicate SilosValid()
      reads this, SiloSet()
    {
      forall s | s in silos :: s.Valid()
    }

    /** An empty world. */
    constructor (top: real, physics: Physics)
      ensures worldTop == top && ph == physics
      ensures silos == [] && cities == [] && missilesIn == [] && missilesOut == [] && explosions == []
      ensures currentTime == 0.0 && Valid()
    {
      worldTop := top;
      ph := physics;
      currentTime := 0.0;
      timeOfIncomingFlight := 0.0;
      silos := [];
      cities := [];
      missilesIn := [];
      missilesOut := [];
      explosions := [];
    }

    /** `setupWorld`: the clock at 0, three silos left to right, six cities. */
    method SetupWorld()
      requires Valid()
      modifies this
      ensures currentTime == 0.0 && timeOfIncomingFlight == IncomingFlightTime
      ensures |silos| == |old(silos)| + 3 && silos[..|old(silos)|] == old(silos)
      ensures forall k | |old(silos)| <= k < |silos| :: fresh(silos[k])
      ensures forall k | |old(silos)| <= k < |silos| :: silos[k].alive && silos[k].roundsLeft == InitialRounds
      ensures silos[|old(silos)|].pos == Vec3(0.1, 0.0, 0.0)
      ensures silos[|old(silos)| + 1].pos == Vec3(0.5, 0.0, 0.0)
      ensures silos[|old(silos)| + 2].pos == Vec3(0.9, 0.0, 0.0)
      ensures cities == old(cities) + [City(Vec3(0.2, 0.0, 0.0)), City(Vec3(0.3, 0.0, 0.0)), City(Vec3(0.4, 0.0, 0.0)),
                                       City(Vec3(0.6, 0.0, 0.0)), City(Vec3(0.7, 0.0, 0.0)), City(Vec3(0.8, 0.0, 0.0))]
      ensures missilesIn == old(missilesIn) && missilesOut == old(missilesOut) && explosions == old(explosions)
      ensures Valid()
    {
      currentTime := 0.0;
      timeOfIncomingFlight := IncomingFlightTime;
      var left := AddSilo(Vec3(0.1, 0.0, 0.0));
      var middle := AddSilo(Vec3(0.5, 0.0, 0.0));
      var right := AddSilo(Vec3(0.9, 0.0, 0.0));
      cities := cities + [City(Vec3(0.2, 0.0, 0.0)), City(Vec3(0.3, 0.0, 0.0)), City(Vec3(0.4, 0.0, 0.0)),
                          City(Vec3(0.6, 0.0, 0.0)), City(Vec3(0.7, 0.0, 0.0)), City(Vec3(0.8, 0.0, 0.0))];
    }

    /** `silos.add(Silo(p))`: one fresh, full silo at `p` joins the end of the row. */
    method AddSilo(p: Vec3) returns (s: Silo)
      requires Valid()
      modifies this
      ensures fresh(s) && s.pos == p && s.alive && s.roundsLeft == InitialRounds
      ensures silos == old(silos) + [s]
      ensures cities == old(cities) && missilesIn == old(missilesIn) && missilesOut == old(missilesOut)
      ensures explosions == old(explosions) && currentTime == old(currentTime)
      ensures timeOfIncomingFlight == old(timeOfIncomingFlight)
      ensures Valid()
    {
      s := new Silo(p);
      DistinctAppend(silos, s);
      silos := silos + [s];
    }

    /**
     * `fireMissile`: a silo that can shoot spends one round and launches one
     * outgoing missile from its position towards (x, y); otherwise nothing
     * changes.  A destroyed silo never fires.
     */
    method FireMissile(siloIndex: int, x: real, y: real)
      requires 0 <= siloIndex < |silos| && Valid()
      modifies this, silos[siloIndex]
      ensures timeOfIncomingFlight == old(timeOfIncomingFlight)
      ensures silos == old(silos) && missilesIn == old(missilesIn) && cities == old(cities)
      ensures explosions == old(explosions) && currentTime == old(currentTime)
      ensures old(silos[siloIndex].roundsLeft) > 0 ==>
        && silos[siloIndex].roundsLeft == old(silos[siloIndex].roundsLeft) - 1
        && silos[siloIndex].alive
        && |missilesOut| == |old(missilesOut)| + 1
        && missilesOut[..|old(missilesOut)|] == old(missilesOut)
        && fresh(missilesOut[|old(missilesOut)|])
        && Launched(missilesOut[|old(missilesOut)|], silos[siloIndex].pos, x, y)
      ensures old(silos[siloIndex].roundsLeft) <= 0 ==>
        missilesOut == old(missilesOut) && unchanged(silos[siloIndex])
      ensures Valid()
    {
      var silo := silos[siloIndex];
      if silo.CanShoot() {
        silo.DecrMissiles();
        var target := Vec3(x, y, 0.0);
        var m := new Missile(silo.Position(), Scale(Speed, ph.normalize(Sub(target, silo.Position()))), y, OutgoingColour);
        assert Distinct(missilesIn + (missilesOut + [m])) by {
          DistinctAppend(missilesIn + missilesOut, m);
          assert missilesIn + (missilesOut + [m]) == missilesIn + missilesOut + [m];
        }
        missilesOut := missilesOut + [m];
      }
    }

    /** An outgoing missile as `fireMissile` builds it for a silo at `from` and the target (x, y). */
    ghost predicate Launched(m: Missile, from: Vec3, x: real, y: real)
      reads m
    {
      && m.pos0 == from && m.pos1 == from
      && m.velocity == Scale(Speed, ph.normalize(Sub(Vec3(x, y, 0.0), from)))
      && m.destY == y && m.colour == OutgoingColour
    }

    /** `updateState` lines 64-70: a random draw decides whether one new incoming missile is launched. */
    method SpawnIncoming(spawnDraw: real, xDraw: real, vxDraw: real) returns (ghost spawned: seq<Missile>)
      requires Valid()
      modifies this
      ensures timeOfIncomingFlight == old(timeOfIncomingFlight)
      ensures |spawned| <= 1
      ensures |spawned| == 1 <==> spawnDraw + currentTime / 1000.0 > 0.99
      ensures forall m | m in spawned :: fresh(m) && IncomingBuilt(m, xDraw, vxDraw) && m.pos1 == m.pos0
      ensures missilesIn == old(missilesIn) + spawned
      ensures missilesOut == old(missilesOut) && explosions == old(explosions)
      ensures silos == old(silos) && cities == old(cities) && currentTime == old(currentTime)
      ensures Valid()
    {
      spawned := [];
      if spawnDraw + currentTime / 1000.0 > 0.99 {
        var m := new Missile(Vec3(xDraw, worldTop, 0.0), Vec3(vxDraw * 0.2 - 0.1, -0.1, 0.0), 0.0, IncomingColour);
        DistinctWithNew(missilesIn, missilesOut, m);
        missilesIn := missilesIn + [m];
        assert missilesIn + missilesOut == old(missilesIn) + [m] + old(missilesOut);
        spawned := [m];
      }
    }

    /** An incoming missile as `updateState` builds it from its two position and velocity draws. */
    predicate IncomingBuilt(m: Missile, xDraw: real, vxDraw: real) {
      && m.pos0 == Vec3(xDraw, worldTop, 0.0)
      && m.velocity == Vec3(vxDraw * 0.2 - 0.1, -0.1, 0.0)
      && m.destY == 0.0 && m.colour == IncomingColour
    }

    /**
     * `updateState` lines 74-81: every incoming missile that has reached its
     * destination is replaced by a light red explosion.  The loop steps back
     * after a removal, so every missile is examined.
     */
    method RetireArrivedIncoming(ghost at: map<Missile, Vec3>)
      requires Valid() && AtPositions(at, missilesIn)
      modifies this
      ensures timeOfIncomingFlight == old(timeOfIncomingFlight)
      ensures AtPositions(at, missilesIn)
      ensures missilesIn == Misses(ArrivalTagsAt(at, old(missilesIn)))
      ensures explosions == old(explosions) + BlastsAt(at, Hits(ArrivalTagsAt(at, old(missilesIn))), IncomingBlastColour)
      ensures missilesOut == old(missilesOut) && silos == old(silos) && cities == old(cities)
      ensures currentTime == old(currentTime)
      ensures Valid()
    {
      var kept, booms := SortArrivals(missilesIn, at, IncomingBlastColour, missilesOut, false);
      missilesIn := kept;
      explosions := explosions + booms;
    }

    /**
     * `updateState` lines 83-90: the same for the outgoing missiles, with
     * light blue explosions.
     */
    method RetireArrivedOutgoing(ghost at: map<Missile, Vec3>)
      requires Valid() && AtPositions(at, missilesOut)
      modifies this
      ensures timeOfIncomingFlight == old(timeOfIncomingFlight)
      ensures AtPositions(at, missilesOut)
      ensures missilesOut == Misses(ArrivalTagsAt(at, old(missilesOut)))
      ensures explosions == old(explosions) + BlastsAt(at, Hits(ArrivalTagsAt(at, old(missilesOut))), OutgoingBlastColour)
      ensures missilesIn == old(missilesIn) && silos == old(silos) && cities == old(cities)
      ensures currentTime == old(currentTime)
      ensures Valid()
    {
      var kept, booms := SortArrivals(missilesOut, at, OutgoingBlastColour, missilesIn, true);
      missilesOut := kept;
      explosions := explosions + booms;
    }

    /**
     * `updateState` lines 94-131: each explosion destroys the cities, silos
     * and incoming missiles within its radius (a destroyed missile becomes a
     * new explosion, visited later in the same loop) and is removed once its
     * radius has reached its maximum.  The city and missile loops do not step
     * back after a removal; the explosion loop does.  The incoming missiles
     * do not move in this phase: `at` holds their positions.  `visited` lists
     * the explosions in the order the loop visits them.
     */
    method ProcessExplosions(ghost at: map<Missile, Vec3>) returns (ghost visited: seq<Circle>)
      requires Valid() && AtPositions(at, missilesIn)
      modifies this, SiloSet()
      ensures timeOfIncomingFlight == old(timeOfIncomingFlight)
      ensures AtPositions(at, missilesIn)
      ensures cities == Cascade(ph, at, old(cities), old(missilesIn), visited).cities
      ensures missilesIn == Cascade(ph, at, old(cities), old(missilesIn), visited).missilesIn
      ensures visited == old(explosions) + Cascade(ph, at, old(cities), old(missilesIn), visited).chain
      ensures Caused(ph, at, old(cities), old(missilesIn), old(explosions), visited)
      ensures explosions == Unexpired(ph, visited) && BelowMaximum(ph, explosions)
      ensures forall s | s in old(silos) :: DestroyedIfHit(ph, s, visited)
      ensures silos == old(silos) && missilesOut == old(missilesOut) && currentTime == old(currentTime)
      ensures Valid()
    {
      ghost var cs0, ms0, es0 := cities, missilesIn, explosions;
      visited := [];
      var i: nat := 0;
      while i < |explosions|
        invariant silos == old(silos) && missilesOut == old(missilesOut) && currentTime == old(currentTime) && timeOfIncomingFlight == old(timeOfIncomingFlight)
        invariant AtPositions(at, missilesIn) && Explored(at, cs0, ms0, es0, visited, i)
        invariant Caused(ph, at, cs0, ms0, es0, visited)
        invariant forall s | s in old(silos) :: DestroyedIfHit(ph, s, visited)
        invariant Valid()
        decreases |missilesIn| + |explosions| - i
      {
        ghost var e := explosions[i];
        label step:
        i := VisitNext(i, at, cs0, ms0, es0, visited);
        forall s | s in old(silos)
          ensures DestroyedIfHit(ph, s, visited + [e])
        {
          HitByAnyExtend(ph, s, visited, e);
          if SiloHitBy(ph, s, e) {
            assert !s.alive && s.roundsLeft == 0;
          } else {
            assert s.alive == old@step(s.alive) && s.roundsLeft == old@step(s.roundsLeft);
          }
        }
        visited := visited + [e];
      }
      assert explosions[..i] == explosions;
      assert explosions[i..] == [];
    }

    /**
     * The explosion loop's state after it has visited the explosions
     * `visited` and stands at index i, given the cities `cs0`, missiles `ms0`
     * at positions `at` and explosions `es0` it started from: the cities and
     * missiles are what the cascade of the visited explosions left, the first
     * i explosions are the visited ones still below their maximum, and the
     * rest are still to be visited.
     */
    ghost predicate Explored(at: map<Missile, Vec3>, cs0: seq<City>, ms0: seq<Missile>, es0: seq<Circle>,
                             visited: seq<Circle>, i: nat)
      reads this
    {
      && Covers(at, ms0) && i <= |explosions|
      && cities == Cascade(ph, at, cs0, ms0, visited).cities
      && missilesIn == Cascade(ph, at, cs0, ms0, visited).missilesIn
      && visited + explosions[i..] == es0 + Cascade(ph, at, cs0, ms0, visited).chain
      && explosions[..i] == Unexpired(ph, visited)
    }

    /** A pass of the explosion loop together with the loop's account of what it has visited. */
    method VisitNext(i: nat, ghost at: map<Missile, Vec3>, ghost cs0: seq<City>, ghost ms0: seq<Missile>,
                     ghost es0: seq<Circle>, ghost visited: seq<Circle>) returns (next: nat)
      requires Valid() && AtPositions(at, missilesIn) && Explored(at, cs0, ms0, es0, visited, i) && i < |explosions|
      requires Caused(ph, at, cs0, ms0, es0, visited)
      modifies this, SiloSet()
      ensures timeOfIncomingFlight == old(timeOfIncomingFlight)
      ensures AtPositions(at, missilesIn) && Explored(at, cs0, ms0, es0, visited + [old(explosions[i])], next)
      ensures Caused(ph, at, cs0, ms0, es0, visited + [old(explosions[i])])
      ensures forall s | s in old(silos) :: DestroyedIfHitBy(ph, s, old(explosions[i]))
      ensures |missilesIn| + |explosions| - next < old(|missilesIn| + |explosions| - i)
      ensures silos == old(silos) && missilesOut == old(missilesOut) && currentTime == old(currentTime)
      ensures Valid()
    {
      ghost var e, E, cs, ms := explosions[i], explosions, cities, missilesIn;
      CausedExtend(ph, at, cs0, ms0, es0, visited, e);
      ghost var chain;
      next, chain := VisitExplosion(i, at);
      VisitStep(ph, at, cs0, ms0, visited, e, cs, ms, cities, missilesIn, chain);
      WorklistStep(ph, E, i, chain, visited, es0, Cascade(ph, at, cs0, ms0, visited).chain, explosions, next);
    }

    /**
     * One pass of the explosion loop of `updateState` (lines 94-131) at
     * index `i`: the explosion's effects, then its removal with a step back
     * when it has reached its maximum radius.
     */
    method VisitExplosion(i: nat, ghost at: map<Missile, Vec3>) returns (next: nat, ghost chain: seq<Circle>)
      requires Valid() && i < |explosions| && AtPositions(at, missilesIn)
      modifies this, SiloSet()
      ensures timeOfIncomingFlight == old(timeOfIncomingFlight)
      ensures AtPositions(at, missilesIn)
      ensures cities == SkipRemove(CityTags(ph, old(explosions[i]), old(cities))).kept
      ensures missilesIn == SkipRemove(BlastTagsAt(ph, old(explosions[i]), at, old(missilesIn))).kept
      ensures chain == BlastsAt(at, SkipRemove(BlastTagsAt(ph, old(explosions[i]), at, old(missilesIn))).removed, ChainBlastColour)
      ensures ph.radius(old(explosions[i])) >= ph.maxRadius(old(explosions[i])) ==>
        next == i && explosions == (old(explosions) + chain)[..i] + (old(explosions) + chain)[i + 1..]
      ensures ph.radius(old(explosions[i])) < ph.maxRadius(old(explosions[i])) ==>
        next == i + 1 && explosions == old(explosions) + chain
      ensures forall s | s in old(silos) :: DestroyedIfHitBy(ph, s, old(explosions[i]))
      ensures |missilesIn| + |explosions| - next < old(|missilesIn| + |explosions| - i)
      ensures silos == old(silos) && missilesOut == old(missilesOut) && currentTime == old(currentTime)
      ensures Valid()
    {
      chain := BlastsAt(at, SkipRemove(BlastTagsAt(ph, explosions[i], at, missilesIn)).removed, ChainBlastColour);
      BlastEffects(explosions[i], at);
      next := RetireIfFullSize(i);
    }

    /**
     * The body of the explosion loop of `updateState` (lines 97-126) for one
     * explosion `e`: the cities, silos and incoming missiles it hits, the
     * missiles at the positions `at`.
     */
    method BlastEffects(e: Circle, ghost at: map<Missile, Vec3>)
      requires Valid() && AtPositions(at, missilesIn)
      modifies this, SiloSet()
      ensures timeOfIncomingFlight == old(timeOfIncomingFlight)
      ensures AtPositions(at, missilesIn)
      ensures cities == SkipRemove(CityTags(ph, e, old(cities))).kept
      ensures missilesIn == SkipRemove(BlastTagsAt(ph, e, at, old(missilesIn))).kept
      ensures explosions == old(explosions) + BlastsAt(at, SkipRemove(BlastTagsAt(ph, e, at, old(missilesIn))).removed, ChainBlastColour)
      ensures |missilesIn| + |explosions| == old(|missilesIn| + |explosions|)
      ensures forall s | s in old(silos) :: DestroyedIfHitBy(ph, s, e)
      ensures silos == old(silos) && missilesOut == old(missilesOut) && currentTime == old(currentTime)
      ensures Valid()
    {
      RemoveHitCities(e);
      label citiesGone:
      DestroyHitSilos(e);
      label silosHit:
      ChainReaction(e, at);
      forall s | s in old(silos) ensures DestroyedIfHitBy(ph, s, e) {
        assert old@citiesGone(s.alive) == old(s.alive) && old@citiesGone(s.roundsLeft) == old(s.roundsLeft);
        assert s.alive == old@silosHit(s.alive) && s.roundsLeft == old@silosHit(s.roundsLeft);
      }
    }

    /**
     * The end of the explosion loop's body (lines 127-130): an explosion
     * that has reached its maximum radius is removed and the index steps
     * back, so that the explosion sliding into its slot is visited next.
     */
    method RetireIfFullSize(i: nat) returns (next: nat)
      requires i < |explosions|
      modifies this
      ensures timeOfIncomingFlight == old(timeOfIncomingFlight)
      ensures old(ph.radius(explosions[i]) >= ph.maxRadius(explosions[i])) ==>
                next == i && explosions == old(explosions[..i] + explosions[i + 1..])
      ensures old(ph.radius(explosions[i]) < ph.maxRadius(explosions[i])) ==>
                next == i + 1 && explosions == old(explosions)
      ensures silos == old(silos) && cities == old(cities) && currentTime == old(currentTime)
      ensures missilesIn == old(missilesIn) && missilesOut == old(missilesOut)
    {
      if ph.radius(explosions[i]) >= ph.maxRadius(explosions[i]) {
        explosions := explosions[..i] + explosions[i + 1..];
        next := i;
      } else {
        next := i + 1;
      }
    }

    /**
     * The city loop of `updateState` (lines 99-102): cities within the
     * explosion are removed, but the loop does not step back, so the city
     * that slides into a freed slot is not examined.
     */
    method RemoveHitCities(e: Circle)
      requires Valid()
      modifies this
      ensures timeOfIncomingFlight == old(timeOfIncomingFlight)
      ensures cities == SkipRemove(old(CityTags(ph, e, cities))).kept
      ensures silos == old(silos) && missilesIn == old(missilesIn) && missilesOut == old(missilesOut)
      ensures explosions == old(explosions) && currentTime == old(currentTime)
      ensures Valid()
    {
      var tags := CityTags(ph, e, cities);
      var kept, hit := RemoveWithoutStepBack(tags);
      cities := kept;
    }

    /**
     * The chain-reaction loop of `updateState` (lines 120-126): each incoming
     * missile within the explosion is removed and a red explosion appended at
     * its position.  The loop does not step back, so the missile that slides
     * into a freed slot is not examined.
     */
    method ChainReaction(e: Circle, ghost at: map<Missile, Vec3>)
      requires Valid() && AtPositions(at, missilesIn)
      modifies this
      ensures timeOfIncomingFlight == old(timeOfIncomingFlight)
      ensures AtPositions(at, missilesIn)
      ensures missilesIn == SkipRemove(BlastTagsAt(ph, e, at, old(missilesIn))).kept
      ensures explosions == old(explosions) + BlastsAt(at, SkipRemove(BlastTagsAt(ph, e, at, old(missilesIn))).removed, ChainBlastColour)
      ensures |missilesIn| + |explosions| == old(|missilesIn| + |explosions|)
      ensures silos == old(silos) && cities == old(cities) && missilesOut == old(missilesOut)
      ensures currentTime == old(currentTime)
      ensures Valid()
    {
      var kept, chain := SortBlasted(e, missilesIn, at, missilesOut);
      missilesIn := kept;
      explosions := explosions + chain;
    }

    /**
     * The tests of the chain-reaction loop on the container `ms`, whose
     * missiles are at `at`: what the skip-removal loop keeps, and one red
     * explosion per removed missile, at its position, in the order of removal.
     */
    method SortBlasted(e: Circle, ms: seq<Missile>, ghost at: map<Missile, Vec3>, ghost others: seq<Missile>)
      returns (kept: seq<Missile>, chain: seq<Circle>)
      requires AtPositions(at, ms) && Distinct(ms + others)
      ensures kept == SkipRemove(BlastTagsAt(ph, e, at, ms)).kept
      ensures chain == BlastsAt(at, SkipRemove(BlastTagsAt(ph, e, at, ms)).removed, ChainBlastColour)
      ensures |kept| + |chain| == |ms| && Distinct(kept + others)
      ensures AtPositions(at, kept)
    {
      var tags := BlastTags(ph, e, ms);
      BlastTagsNow(ph, e, at, ms);
      chain := Blasts(SkipRemove(tags).removed, ChainBlastColour);
      BlastsNow(at, SkipRemove(tags).removed, ChainBlastColour);
      var removed;
      kept, removed := RemoveWithoutStepBack(tags);
      SkipRemovePartition(tags);
      assert forall m | m in kept :: m in ms by {
        forall m | m in kept ensures m in ms {
          assert m in multiset(kept);
        }
      }
      DistinctOfParts(ms, others, kept, others);
    }

    /**
     * The silo loop of `updateState` (lines 114-117): every silo within the
     * explosion is destroyed and every other silo is left as it was.
     */
    method DestroyHitSilos(e: Circle)
      requires SilosValid()
      modifies SiloSet()
      ensures SilosValid()
      ensures forall s | s in silos :: DestroyedIfHitBy(ph, s, e)
    {
      var k := 0;
      while k < |silos|
        invariant 0 <= k <= |silos|
        invariant SilosValid()
        invariant forall s | s in silos ::
          if SiloHitBy(ph, s, e) && s in silos[..k] then !s.alive && s.roundsLeft == 0
          else s.alive == old(s.alive) && s.roundsLeft == old(s.roundsLeft)
      {
        if silos[k].IsHit(ph.length, ph.position(e), ph.radius(e)) {
          silos[k].Destroy();
        }
        assert silos[..k + 1] == silos[..k] + [silos[k]];
        k := k + 1;
      }
      assert silos[..k] == silos;
    }

    /** The survival loop of `updateState` (lines 133-138). */
    method AnySiloAlive() returns (surviving: bool)
      ensures surviving <==> exists s | s in silos :: s.alive
    {
      surviving := false;
      var i := 0;
      while i < |silos|
        invariant 0 <= i <= |silos|
        invariant surviving <==> exists j | 0 <= j < i :: silos[j].alive
      {
        if silos[i].IsAlive() {
          surviving := true;
        }
        i := i + 1;
      }
    }

    /** The last loop of `updateState`: every explosion grows by `deltaT`. */
    method ExpandExplosions(deltaT: real)
      modifies this
      ensures timeOfIncomingFlight == old(timeOfIncomingFlight)
      ensures |explosions| == |old(explosions)|
      ensures forall k | 0 <= k < |explosions| :: explosions[k] == ph.expand(old(explosions)[k], deltaT)
      ensures silos == old(silos) && cities == old(cities) && currentTime == old(currentTime)
      ensures missilesIn == old(missilesIn) && missilesOut == old(missilesOut)
    {
      var i := 0;
      while i < |explosions|
        invariant 0 <= i <= |explosions| && |explosions| == |old(explosions)|
        invariant forall k | 0 <= k < i :: explosions[k] == ph.expand(old(explosions)[k], deltaT)
        invariant forall k | i <= k < |explosions| :: explosions[k] == old(explosions)[k]
        invariant silos == old(silos) && cities == old(cities) && currentTime == old(currentTime) && timeOfIncomingFlight == old(timeOfIncomingFlight)
        invariant missilesIn == old(missilesIn) && missilesOut == old(missilesOut)
      {
        explosions := explosions[i := ph.expand(explosions[i], deltaT)];
        i := i + 1;
      }
    }

    /**
     * `updateState`: advance the clock, perhaps launch an incoming missile,
     * turn arrived missiles into explosions, let the explosions destroy what
     * they reach, report whether the game is lost, then move every missile
     * and grow every explosion.  `at` holds where each missile stood before
     * it moved (a new missile at its launch point), and `visited` the
     * explosions in the order the explosion loop visited them.
     */
    method UpdateState(deltaT: real, spawnDraw: real, xDraw: real, vxDraw: real)
      returns (dead: bool, ghost spawned: seq<Missile>, ghost at: map<Missile, Vec3>, ghost visited: seq<Circle>)
      requires Valid()
      modifies this, SiloSet(), MissileSet()
      ensures timeOfIncomingFlight == old(timeOfIncomingFlight)
      ensures currentTime == old(currentTime) + deltaT
      ensures |spawned| <= 1 && (|spawned| == 1 <==> spawnDraw + currentTime / 1000.0 > 0.99)
      ensures forall m | m in spawned :: fresh(m) && IncomingBuilt(m, xDraw, vxDraw)
      ensures forall m | m in old(missilesIn + missilesOut) :: m in at && at[m] == old(m.pos1)
      ensures forall m | m in spawned :: m in at && at[m] == m.pos0
      ensures Covers(at, old(missilesIn) + spawned) && Covers(at, old(missilesOut))
      ensures missilesOut == Misses(ArrivalTagsAt(at, old(missilesOut)))
      ensures cities == Cascade(ph, at, old(cities), Misses(ArrivalTagsAt(at, old(missilesIn) + spawned)), visited).cities
      ensures missilesIn == Cascade(ph, at, old(cities), Misses(ArrivalTagsAt(at, old(missilesIn) + spawned)), visited).missilesIn
      ensures visited == old(explosions)
        + BlastsAt(at, Hits(ArrivalTagsAt(at, old(missilesIn) + spawned)), IncomingBlastColour)
        + BlastsAt(at, Hits(ArrivalTagsAt(at, old(missilesOut))), OutgoingBlastColour)
        + Cascade(ph, at, old(cities), Misses(ArrivalTagsAt(at, old(missilesIn) + spawned)), visited).chain
      ensures Caused(ph, at, old(cities), Misses(ArrivalTagsAt(at, old(missilesIn) + spawned)),
        old(explosions)
        + BlastsAt(at, Hits(ArrivalTagsAt(at, old(missilesIn) + spawned)), IncomingBlastColour)
        + BlastsAt(at, Hits(ArrivalTagsAt(at, old(missilesOut))), OutgoingBlastColour), visited)
      ensures |explosions| == |Unexpired(ph, visited)|
      ensures forall k | 0 <= k < |explosions| :: explosions[k] == ph.expand(Unexpired(ph, visited)[k], deltaT)
      ensures forall k | 0 <= k < |missilesIn| ::
        missilesIn[k] in at && missilesIn[k].pos1 == Add(at[missilesIn[k]], Scale(deltaT, missilesIn[k].velocity))
      ensures forall k | 0 <= k < |missilesOut| ::
        missilesOut[k] in at && missilesOut[k].pos1 == Add(at[missilesOut[k]], Scale(deltaT, missilesOut[k].velocity))
      ensures silos == old(silos)
      ensures forall s | s in old(silos) :: DestroyedIfHit(ph, s, visited)
      ensures dead <==> |cities| == 0 && forall s | s in silos :: !s.alive
      ensures Valid()
    {
      dead, spawned, at, visited := Settle(deltaT, spawnDraw, xDraw, vxDraw);
      CascadeAddsNoMissile(ph, at, old(cities), old(missilesIn) + spawned, visited);
      label settled:
      MoveObjects(deltaT, at);
      forall s | s in old(silos) ensures DestroyedIfHit(ph, s, visited) {
        assert s.alive == old@settled(s.alive) && s.roundsLeft == old@settled(s.roundsLeft);
      }
    }

    /**
     * `updateState` lines 52-142: everything before the moves.  The clock
     * advances, perhaps a missile is launched, the arrived missiles become
     * explosions, the explosions do their damage, and `dead` reports whether
     * no city and no live silo remain.
     */
    method Settle(deltaT: real, spawnDraw: real, xDraw: real, vxDraw: real)
      returns (dead: bool, ghost spawned: seq<Missile>, ghost at: map<Missile, Vec3>, ghost visited: seq<Circle>)
      requires Valid()
      modifies this, SiloSet()
      ensures timeOfIncomingFlight == old(timeOfIncomingFlight)
      ensures currentTime == old(currentTime) + deltaT
      ensures |spawned| <= 1 && (|spawned| == 1 <==> spawnDraw + currentTime / 1000.0 > 0.99)
      ensures forall m | m in spawned :: fresh(m) && IncomingBuilt(m, xDraw, vxDraw)
      ensures forall m | m in old(missilesIn + missilesOut) :: m in at && at[m] == old(m.pos1)
      ensures forall m | m in spawned :: m in at && at[m] == m.pos0
      ensures Covers(at, old(missilesIn) + spawned) && Covers(at, old(missilesOut))
      ensures AtPositions(at, missilesIn) && AtPositions(at, missilesOut)
      ensures missilesOut == Misses(ArrivalTagsAt(at, old(missilesOut)))
      ensures cities == Cascade(ph, at, old(cities), Misses(ArrivalTagsAt(at, old(missilesIn) + spawned)), visited).cities
      ensures missilesIn == Cascade(ph, at, old(cities), Misses(ArrivalTagsAt(at, old(missilesIn) + spawned)), visited).missilesIn
      ensures visited == old(explosions)
        + BlastsAt(at, Hits(ArrivalTagsAt(at, old(missilesIn) + spawned)), IncomingBlastColour)
        + BlastsAt(at, Hits(ArrivalTagsAt(at, old(missilesOut))), OutgoingBlastColour)
        + Cascade(ph, at, old(cities), Misses(ArrivalTagsAt(at, old(missilesIn) + spawned)), visited).chain
      ensures Caused(ph, at, old(cities), Misses(ArrivalTagsAt(at, old(missilesIn) + spawned)),
        old(explosions)
        + BlastsAt(at, Hits(ArrivalTagsAt(at, old(missilesIn) + spawned)), IncomingBlastColour)
        + BlastsAt(at, Hits(ArrivalTagsAt(at, old(missilesOut))), OutgoingBlastColour), visited)
      ensures explosions == Unexpired(ph, visited)
      ensures silos == old(silos)
      ensures forall s | s in old(silos) :: DestroyedIfHit(ph, s, visited)
      ensures dead <==> |cities| == 0 && forall s | s in silos :: !s.alive
      ensures Valid()
    {
      spawned, at := ClockAndSpawn(deltaT, spawnDraw, xDraw, vxDraw);
      ghost var launchedIn, launchedOut := missilesIn, missilesOut;
      label spawned:
      visited := Detonate(at);
      var surviving := AnySiloAlive();
      dead := false;
      if |cities| == 0 && !surviving {
        dead := true;
      }
      forall s | s in old(silos)
        ensures DestroyedIfHit(ph, s, visited)
      {
        assert old@spawned(s.alive) == old(s.alive) && old@spawned(s.roundsLeft) == old(s.roundsLeft);
      }
    }

    /**
     * `updateState` lines 55-70: the clock advances and perhaps an incoming
     * missile is launched; `at` records where every missile now stands.
     */
    method ClockAndSpawn(deltaT: real, spawnDraw: real, xDraw: real, vxDraw: real)
      returns (ghost spawned: seq<Missile>, ghost at: map<Missile, Vec3>)
      requires Valid()
      modifies this
      ensures timeOfIncomingFlight == old(timeOfIncomingFlight)
      ensures currentTime == old(currentTime) + deltaT
      ensures |spawned| <= 1 && (|spawned| == 1 <==> spawnDraw + currentTime / 1000.0 > 0.99)
      ensures forall m | m in spawned :: fresh(m) && IncomingBuilt(m, xDraw, vxDraw) && m in at && at[m] == m.pos0
      ensures forall m | m in old(missilesIn + missilesOut) :: m in at && at[m] == old(m.pos1)
      ensures missilesIn == old(missilesIn) + spawned && missilesOut == old(missilesOut)
      ensures AtPositions(at, missilesIn) && AtPositions(at, missilesOut)
      ensures silos == old(silos) && cities == old(cities) && explosions == old(explosions)
      ensures forall s | s in silos :: s.alive == old(s.alive) && s.roundsLeft == old(s.roundsLeft)
      ensures Valid()
    {
      currentTime := currentTime + deltaT;
      spawned := SpawnIncoming(spawnDraw, xDraw, vxDraw);
      at := PositionsOf(missilesIn + missilesOut);
    }

    /**
     * `updateState` lines 74-131: the arrived missiles become explosions,
     * then the explosion loop runs over the old and the new explosions.  No
     * missile moves in between: `at` holds their positions.
     */
    method Detonate(ghost at: map<Missile, Vec3>) returns (ghost visited: seq<Circle>)
      requires Valid() && AtPositions(at, missilesIn) && AtPositions(at, missilesOut)
      modifies this, SiloSet()
      ensures timeOfIncomingFlight == old(timeOfIncomingFlight)
      ensures AtPositions(at, missilesIn) && AtPositions(at, missilesOut)
      ensures Covers(at, old(missilesIn)) && Covers(at, old(missilesOut))
      ensures missilesOut == Misses(ArrivalTagsAt(at, old(missilesOut)))
      ensures cities == Cascade(ph, at, old(cities), Misses(ArrivalTagsAt(at, old(missilesIn))), visited).cities
      ensures missilesIn == Cascade(ph, at, old(cities), Misses(ArrivalTagsAt(at, old(missilesIn))), visited).missilesIn
      ensures visited == old(explosions)
        + BlastsAt(at, Hits(ArrivalTagsAt(at, old(missilesIn))), IncomingBlastColour)
        + BlastsAt(at, Hits(ArrivalTagsAt(at, old(missilesOut))), OutgoingBlastColour)
        + Cascade(ph, at, old(cities), Misses(ArrivalTagsAt(at, old(missilesIn))), visited).chain
      ensures Caused(ph, at, old(cities), Misses(ArrivalTagsAt(at, old(missilesIn))),
        old(explosions)
        + BlastsAt(at, Hits(ArrivalTagsAt(at, old(missilesIn))), IncomingBlastColour)
        + BlastsAt(at, Hits(ArrivalTagsAt(at, old(missilesOut))), OutgoingBlastColour), visited)
      ensures explosions == Unexpired(ph, visited)
      ensures forall s | s in old(silos) :: DestroyedIfHit(ph, s, visited)
      ensures silos == old(silos) && currentTime == old(currentTime)
      ensures Valid()
    {
      RetireArrived(at);
      label retired:
      visited := ProcessExplosions(at);
      forall s | s in old(silos)
        ensures DestroyedIfHit(ph, s, visited)
      {
        assert old@retired(s.alive) == old(s.alive) && old@retired(s.roundsLeft) == old(s.roundsLeft);
      }
    }

    /**
     * The last three loops of `updateState` (lines 150-157): the missiles
     * move on from the positions `at` and the explosions grow; nothing else
     * changes.
     */
    method MoveObjects(deltaT: real, ghost at: map<Missile, Vec3>)
      requires Valid() && AtPositions(at, missilesIn) && AtPositions(at, missilesOut)
      modifies this, MissileSet()
      ensures timeOfIncomingFlight == old(timeOfIncomingFlight)
      ensures silos == old(silos) && cities == old(cities) && currentTime == old(currentTime)
      ensures missilesIn == old(missilesIn) && missilesOut == old(missilesOut)
      ensures |explosions| == |old(explosions)|
      ensures forall k | 0 <= k < |explosions| :: explosions[k] == ph.expand(old(explosions)[k], deltaT)
      ensures forall k | 0 <= k < |missilesIn| ::
        missilesIn[k] in at && missilesIn[k].pos1 == Add(at[missilesIn[k]], Scale(deltaT, missilesIn[k].velocity))
      ensures forall k | 0 <= k < |missilesOut| ::
        missilesOut[k] in at && missilesOut[k].pos1 == Add(at[missilesOut[k]], Scale(deltaT, missilesOut[k].velocity))
      ensures forall s | s in silos :: s.alive == old(s.alive) && s.roundsLeft == old(s.roundsLeft)
      ensures Valid()
    {
      MoveMissiles(deltaT);
      ExpandExplosions(deltaT);
    }

    /**
     * The removal loops of `updateState` (lines 74-90): both missile
     * containers are rid of the missiles that have arrived, at the positions
     * `at`, each of which leaves an explosion there.
     */
    method RetireArrived(ghost at: map<Missile, Vec3>)
      requires Valid() && AtPositions(at, missilesIn) && AtPositions(at, missilesOut)
      modifies this
      ensures timeOfIncomingFlight == old(timeOfIncomingFlight)
      ensures AtPositions(at, missilesIn) && AtPositions(at, missilesOut)
      ensures missilesIn == Misses(ArrivalTagsAt(at, old(missilesIn)))
      ensures missilesOut == Misses(ArrivalTagsAt(at, old(missilesOut)))
      ensures explosions == old(explosions)
        + BlastsAt(at, Hits(ArrivalTagsAt(at, old(missilesIn))), IncomingBlastColour)
        + BlastsAt(at, Hits(ArrivalTagsAt(at, old(missilesOut))), OutgoingBlastColour)
      ensures silos == old(silos) && cities == old(cities) && currentTime == old(currentTime)
      ensures Valid()
    {
      RetireArrivedIncoming(at);
      RetireArrivedOutgoing(at);
    }

    /**
     * The movement loops of `updateState` (lines 150-154): every incoming
     * and every outgoing missile advances by its velocity times `deltaT`.
     */
    method MoveMissiles(deltaT: real)
      requires Valid()
      modifies MissileSet()
      ensures forall k | 0 <= k < |missilesIn| ::
        missilesIn[k].pos1 == Add(old(missilesIn[k].pos1), Scale(deltaT, missilesIn[k].velocity))
      ensures forall k | 0 <= k < |missilesOut| ::
        missilesOut[k].pos1 == Add(old(missilesOut[k].pos1), Scale(deltaT, missilesOut[k].velocity))
    {
      DistinctSub(missilesIn, missilesIn + missilesOut);
      DistinctSub(missilesOut, missilesIn + missilesOut);
      DistinctApart(missilesIn, missilesOut);
      MoveAll(missilesIn, deltaT);
      MoveAll(missilesOut, deltaT);
    }
  }
}
