// The state main() keeps for the two pools, and the part of each animation
// frame that updates them.

module Simulation {
  import opened Splice
  import Lasers
  import Lightnings

  /** The `lasers` and `lightnings` arrays of main(), and the scene their
      meshes are added to and removed from. Meshes are told apart by the id
      they get when they are made. */
  class Pools {
    var lasers: seq<Lasers.Laser>
    var lightnings: seq<Lightnings.Lightning>
    /** The id the next mesh will get. */
    var nextId: nat
    /** The ids of the pool meshes that are in the scene. */
    ghost var scene: set<nat>

    /** The scene holds exactly the meshes of the two pools; no mesh is in a
        pool twice or in both pools, and every id was handed out. */
    ghost predicate Valid()
      reads this
    {
      && scene == Keys(lasers, Lasers.Id) + Keys(lightnings, Lightnings.Id)
      && Keys(lasers, Lasers.Id) !! Keys(lightnings, Lightnings.Id)
      && DistinctKeys(lasers, Lasers.Id)
      && DistinctKeys(lightnings, Lightnings.Id)
      && (forall id :: id in scene ==> id < nextId)
    }

    /** Both pools start empty. */
    constructor ()
      ensures Valid()
      ensures lasers == [] && lightnings == [] && scene == {}
    {
      lasers, lightnings, nextId, scene := [], [], 0, {};
    }

    /** createLaser: a new laser is added to the scene and to the end of the
        pool. */
    method CreateLaser(d: Lasers.LaserDraw)
      requires Valid() && d.Valid()
      modifies this
      ensures Valid()
      ensures lasers == old(lasers) + [Lasers.Spawned(old(nextId), d)]
      ensures lightnings == old(lightnings)
      ensures nextId == old(nextId) + 1
      ensures scene == old(scene) + {old(nextId)}
    {
      var laser := Lasers.Spawned(nextId, d);
      KeysAppend(lasers, laser, Lasers.Id);
      scene := scene + {laser.id};
      lasers := lasers + [laser];
      nextId := nextId + 1;
    }

    /** updateLasers: advance every laser the pass visits, take those out of
        bounds out of the scene and the pool, then add one laser if fewer
        than MAX_LASERS are left. */
    method UpdateLasers(d: Lasers.LaserDraw)
      requires Valid() && d.Valid()
      modifies this
      ensures Valid()
      ensures lasers == Lasers.Step(old(lasers), Lasers.Spawned(old(nextId), d))
      ensures old(|lasers|) <= Lasers.MAX_LASERS ==> |lasers| <= Lasers.MAX_LASERS
      ensures lightnings == old(lightnings)
      ensures nextId == old(nextId) + (if Lasers.Spawns(Lasers.Sweep(old(lasers)).kept) then 1 else 0)
      ensures scene == old(scene) - Keys(Lasers.Sweep(old(lasers)).removed, Lasers.Id)
                      + (if Lasers.Spawns(Lasers.Sweep(old(lasers)).kept) then {old(nextId)} else {})
    {
      var kept, removed := ForEachSplice(lasers, Lasers.Advance, Lasers.Escaped);
      WalkKeys(lasers, Lasers.Advance, Lasers.Escaped, Lasers.Id);
      scene := scene - Keys(removed, Lasers.Id);
      lasers := kept;
      if |lasers| < Lasers.MAX_LASERS {
        CreateLaser(d);
      }
    }

    /** createLightning: a new bolt, its path traced from the draws and its
        birth time read from the clock, is added to the scene and to the end
        of the pool. */
    method CreateLightning(d: Lightnings.BoltDraw)
      requires Valid() && d.Valid()
      modifies this
      ensures Valid()
      ensures lightnings == old(lightnings) + [Lightnings.Spawned(old(nextId), d)]
      ensures lasers == old(lasers)
      ensures nextId == old(nextId) + 1
      ensures scene == old(scene) + {old(nextId)}
    {
      var positions := Lightnings.Trace(d.path);
      var bolt := Lightnings.Lightning(nextId, positions, d.clock);
      KeysAppend(lightnings, bolt, Lightnings.Id);
      scene := scene + {bolt.id};
      lightnings := lightnings + [bolt];
      nextId := nextId + 1;
    }

    /** updateLightnings at clock reading `now`: take the bolts the pass finds
        older than LIFETIME out of the scene and the pool, then, if fewer than
        MAX_LIGHTNINGS are left and the draw `chance` is below SPAWN_CHANCE,
        add one bolt. */
    method UpdateLightnings(now: int, chance: real, d: Lightnings.BoltDraw)
      requires Valid() && d.Valid()
      modifies this
      ensures Valid()
      ensures lightnings == Lightnings.Step(old(lightnings), now, chance, Lightnings.Spawned(old(nextId), d))
      ensures old(|lightnings|) <= Lightnings.MAX_LIGHTNINGS ==> |lightnings| <= Lightnings.MAX_LIGHTNINGS
      ensures lasers == old(lasers)
      ensures nextId == old(nextId) + (if Lightnings.Spawns(Lightnings.Sweep(old(lightnings), now).kept, chance) then 1 else 0)
      ensures scene == old(scene) - Keys(Lightnings.Sweep(old(lightnings), now).removed, Lightnings.Id)
                      + (if Lightnings.Spawns(Lightnings.Sweep(old(lightnings), now).kept, chance) then {old(nextId)} else {})
    {
      var kept, removed := ForEachSplice(lightnings, Lightnings.Keep, Lightnings.ExpiredAt(now));
      WalkKeys(lightnings, Lightnings.Keep, Lightnings.ExpiredAt(now), Lightnings.Id);
      scene := scene - Keys(removed, Lightnings.Id);
      lightnings := kept;
      if |lightnings| < Lightnings.MAX_LIGHTNINGS && chance < Lightnings.SPAWN_CHANCE {
        CreateLightning(d);
      }
    }

    /** The pool updates of one call of render: the lasers, then the bolts. */
    method Frame(ld: Lasers.LaserDraw, now: int, chance: real, bd: Lightnings.BoltDraw)
      requires Valid() && ld.Valid() && bd.Valid()
      modifies this
      ensures Valid()
      ensures lasers == Lasers.Step(old(lasers), Lasers.Spawned(old(nextId), ld))
      ensures lightnings == Lightnings.Step(old(lightnings), now, chance,
                Lightnings.Spawned(old(nextId) + (if Lasers.Spawns(Lasers.Sweep(old(lasers)).kept) then 1 else 0), bd))
      ensures old(|lasers|) <= Lasers.MAX_LASERS ==> |lasers| <= Lasers.MAX_LASERS
      ensures old(|lightnings|) <= Lightnings.MAX_LIGHTNINGS ==> |lightnings| <= Lightnings.MAX_LIGHTNINGS
      ensures nextId == old(nextId)
                        + (if Lasers.Spawns(Lasers.Sweep(old(lasers)).kept) then 1 else 0)
                        + (if Lightnings.Spawns(Lightnings.Sweep(old(lightnings), now).kept, chance) then 1 else 0)
    {
      UpdateLasers(ld);
      UpdateLightnings(now, chance, bd);
    }
  }
}
