// The laser pool: lasers fly in a straight line, one velocity step per
// frame, and leave the pool once they are outside the cube |x|, |y|, |z| <= 10;
// the pool tops itself up by one laser per frame while it holds fewer than 20.

module Lasers {
  import opened Geometry
  import opened Splice

  /** The population below which a frame adds a laser. */
  const MAX_LASERS := 20

  /** A laser mesh: its identity in the scene, its position, and the
      velocity it carries in userData. */
  datatype Laser = Laser(id: nat, position: Vec3, velocity: Vec3)

  /** What one createLaser call draws: three Math.random values for the
      start position, and the velocity that the other three give once
      normalised and scaled to speed 0.5. */
  datatype LaserDraw = LaserDraw(sx: real, sy: real, sz: real, velocity: Vec3) {
    /** Math.random returns a value in [0, 1). */
    predicate Valid() {
      0.0 <= sx < 1.0 && 0.0 <= sy < 1.0 && 0.0 <= sz < 1.0
    }
  }

  /** The start position, (Math.random() - 0.5) * 20 on each axis: a new
      laser starts inside the cube it is removed from. */
  function Start(d: LaserDraw): (p: Vec3)
    requires d.Valid()
    ensures -BOUND <= p.x < BOUND && -BOUND <= p.y < BOUND && -BOUND <= p.z < BOUND
    ensures !OutOfBounds(p)
  {
    Vec3((d.sx - 0.5) * 20.0, (d.sy - 0.5) * 20.0, (d.sz - 0.5) * 20.0)
  }

  /** The laser createLaser makes from its draws: inside the cube, moving
      with the drawn velocity. */
  function Spawned(id: nat, d: LaserDraw): (l: Laser)
    requires d.Valid()
    ensures l.id == id && l.velocity == d.velocity
    ensures !Escaped(l)
  {
    Laser(id, Start(d), d.velocity)
  }

  /** laser.position.add(laser.userData.velocity): the laser moves by
      exactly its velocity and is otherwise the same laser. */
  function Advance(l: Laser): (a: Laser)
    ensures a.id == l.id && a.velocity == l.velocity
    ensures a.position.x - l.position.x == l.velocity.x
    ensures a.position.y - l.position.y == l.velocity.y
    ensures a.position.z - l.position.z == l.velocity.z
  {
    l.(position := Add(l.position, l.velocity))
  }

  /** The removal condition of updateLasers, on the advanced laser: some
      coordinate lies beyond -BOUND or BOUND. */
  predicate Escaped(l: Laser)
    ensures Escaped(l) <==>
      l.position.x < -BOUND || BOUND < l.position.x
      || l.position.y < -BOUND || BOUND < l.position.y
      || l.position.z < -BOUND || BOUND < l.position.z
  {
    OutOfBounds(l.position)
  }

  function Id(l: Laser): nat {
    l.id
  }

  /** The forEach pass of updateLasers over the pool `ls`: its callback
      advances the laser, then splices it out if it has escaped. The pass
      accounts for every laser of the pool: each id of the pool is the id of
      a kept or a removed laser, and no other id appears. */
  function Sweep(ls: seq<Laser>): (w: SweepState<Laser>)
    ensures |w.kept| + |w.removed| == |ls|
    ensures Keys(w.kept, Id) + Keys(w.removed, Id) == Keys(ls, Id)
  {
    KeysCover(ls, Advance, Escaped, Id);
    Walk(ls, Advance, Escaped, |ls|)
  }

  /** The original positions of the lasers the pass keeps, in order. */
  function KeptAt(ls: seq<Laser>): seq<nat> {
    Indices(ls, Advance, Escaped, |ls|, false)
  }

  /** A laser is added: fewer than MAX_LASERS survived the pass, so there
      is room for one more. */
  predicate Spawns(kept: seq<Laser>)
    ensures Spawns(kept) <==> |kept| + 1 <= MAX_LASERS
  {
    |kept| < MAX_LASERS
  }

  /** updateLasers on the pool `ls`, with `spawn` the laser createLaser
      would make: the survivors of the pass, then `spawn` if fewer than
      MAX_LASERS survive. */
  function Step(ls: seq<Laser>, spawn: Laser): (r: seq<Laser>)
    ensures |ls| <= MAX_LASERS ==> |r| <= MAX_LASERS
    ensures 0 < |r| <= |ls| + 1
    ensures |Sweep(ls).kept| <= |r|
    ensures r[..|Sweep(ls).kept|] == Sweep(ls).kept
    ensures |r| == |Sweep(ls).kept| + 1 <==> Spawns(Sweep(ls).kept)
    ensures Spawns(Sweep(ls).kept) ==> r[|r| - 1] == spawn
    ensures !Spawns(Sweep(ls).kept) ==> r == Sweep(ls).kept
  {
    var kept := Sweep(ls).kept;
    if Spawns(kept) then kept + [spawn] else kept
  }

  /** Every laser the pass removes is one of the pool's lasers, advanced by
      its velocity, and is then out of bounds. */
  lemma RemovedLasersEscaped(ls: seq<Laser>)
    ensures forall u :: 0 <= u < |Sweep(ls).removed| ==>
      Escaped(Sweep(ls).removed[u])
      && exists i :: 0 <= i < |ls| && Sweep(ls).removed[u] == Advance(ls[i])
  {
    var droppedAt := Indices(ls, Advance, Escaped, |ls|, true);
    WalkRemoved(ls, Advance, Escaped, |ls|);
    IndicesSound(ls, Advance, Escaped, |ls|, true);
    forall u | 0 <= u < |Sweep(ls).removed|
      ensures Escaped(Sweep(ls).removed[u])
      ensures exists i :: 0 <= i < |ls| && Sweep(ls).removed[u] == Advance(ls[i])
    {
      assert Sweep(ls).removed[u] == Advance(ls[droppedAt[u]]);
    }
  }

  /** The survivors of the pass are the pool's lasers in their original
      order; each was either handed to the callback, advanced by exactly its
      velocity and found in bounds, or skipped because the laser before it
      was just spliced out, and then left exactly as it was. */
  lemma SurvivorsAdvancedOrSkipped(ls: seq<Laser>)
    ensures |Sweep(ls).kept| == |KeptAt(ls)|
    ensures forall t, u :: 0 <= t < u < |KeptAt(ls)| ==> KeptAt(ls)[t] < KeptAt(ls)[u]
    ensures forall t :: 0 <= t < |KeptAt(ls)| ==>
      KeptAt(ls)[t] < |ls|
      && ((Visited(ls, Advance, Escaped, KeptAt(ls)[t])
           && Sweep(ls).kept[t] == Advance(ls[KeptAt(ls)[t]])
           && !Escaped(Sweep(ls).kept[t]))
          || (0 < KeptAt(ls)[t] && Dropped(ls, Advance, Escaped, KeptAt(ls)[t] - 1)
              && Sweep(ls).kept[t] == ls[KeptAt(ls)[t]]))
  {
    WalkKept(ls, Advance, Escaped, |ls|);
    IndicesSound(ls, Advance, Escaped, |ls|, false);
    IndicesIncrease(ls, Advance, Escaped, |ls|, false);
  }

  /** A laser that is in bounds once advanced is never removed: it survives,
      advanced or (if skipped) as it was. */
  lemma InBoundsLaserSurvives(ls: seq<Laser>, i: nat)
    requires i < |ls| && !Escaped(Advance(ls[i]))
    ensures exists t ::
              0 <= t < |Sweep(ls).kept|
              && (Sweep(ls).kept[t] == Advance(ls[i]) || Sweep(ls).kept[t] == ls[i])
  {
    WalkKept(ls, Advance, Escaped, |ls|);
    IndicesComplete(ls, Advance, Escaped, |ls|, false);
    assert !Dropped(ls, Advance, Escaped, i);
    assert i in KeptAt(ls);
    var t :| 0 <= t < |KeptAt(ls)| && KeptAt(ls)[t] == i;
    assert Sweep(ls).kept[t] == Fate(ls, Advance, Escaped, i);
  }

  /** Two neighbouring lasers that both leave the cube this frame: the first
      is removed, and the second slides onto its index, is never advanced and
      stays in the pool for another frame. */
  lemma NeighbourOfRemovedIsSkipped()
    ensures var a := Laser(0, Vec3(10.0, 0.0, 0.0), Vec3(0.5, 0.0, 0.0));
      var b := Laser(1, Vec3(10.0, 0.0, 0.0), Vec3(0.5, 0.0, 0.0));
      Sweep([a, b]).kept == [b] && Sweep([a, b]).removed == [Advance(a)]
      && Escaped(Advance(b))
  {
    var a := Laser(0, Vec3(10.0, 0.0, 0.0), Vec3(0.5, 0.0, 0.0));
    var b := Laser(1, Vec3(10.0, 0.0, 0.0), Vec3(0.5, 0.0, 0.0));
    assert Walk([a, b], Advance, Escaped, 1) == SweepState([], [Advance(a)], true);
  }

  /** The pass as it is meant to be: every laser is advanced, those out of
      bounds are removed, and every laser in bounds once advanced stays. */
  function IntendedSweep(ls: seq<Laser>): (w: SweepState<Laser>)
    ensures |w.kept| + |w.removed| == |ls|
    ensures forall u :: 0 <= u < |w.removed| ==>
      Escaped(w.removed[u]) && exists i :: 0 <= i < |ls| && w.removed[u] == Advance(ls[i])
    ensures forall t :: 0 <= t < |w.kept| ==>
      !Escaped(w.kept[t]) && exists i :: 0 <= i < |ls| && w.kept[t] == Advance(ls[i])
    ensures forall i :: 0 <= i < |ls| && !Escaped(Advance(ls[i])) ==> Advance(ls[i]) in w.kept
    ensures forall i :: 0 <= i < |ls| && Escaped(Advance(ls[i])) ==> Advance(ls[i]) in w.removed
  {
    Compact(ls, Advance, Escaped, |ls|)
  }

  /** The pool after one updateLasers call per element of `spawns`, each
      with the laser createLaser would make in that frame. */
  function Run(ls: seq<Laser>, spawns: seq<Laser>): seq<Laser> {
    if spawns == [] then ls
    else Step(Run(ls, spawns[..|spawns| - 1]), spawns[|spawns| - 1])
  }

  /** From a pool of at most MAX_LASERS (the empty one at start-up), every
      sequence of frames keeps it at most MAX_LASERS, and from the first
      frame on it is never empty. */
  lemma {:induction false} RunBounded(ls: seq<Laser>, spawns: seq<Laser>)
    requires |ls| <= MAX_LASERS
    ensures |Run(ls, spawns)| <= MAX_LASERS
    ensures spawns != [] ==> |Run(ls, spawns)| > 0
  {
    if spawns != [] {
      RunBounded(ls, spawns[..|spawns| - 1]);
    }
  }
}
