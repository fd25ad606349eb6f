// The lightning pool: a bolt is a jagged line of eleven points that starts at
// height 5 and walks downward in ten random steps; it lives for 200 ms, and a
// frame may add one while fewer than five are alive.

module Lightnings {
  import opened Geometry
  import opened Splice

  /** The population below which a frame may add a bolt. */
  const MAX_LIGHTNINGS := 5

  /** How long a bolt lives, in milliseconds of Date.now(). */
  const LIFETIME := 200

  /** The chance, per frame, that a bolt is added when there is room. */
  const SPAWN_CHANCE: real := 0.05

  /** The random steps after the start point of a bolt. */
  const SEGMENTS := 10

  /** The points of a bolt: the start point and one per step. */
  const POINTS := SEGMENTS + 1

  /** The height at which every bolt starts. */
  const START_Y: real := 5.0

  /** The Math.random values a bolt's path consumes: two for the start
      point, three per step. */
  const PATH_DRAWS := 2 + 3 * SEGMENTS

  /** A lightning line: its identity in the scene, the flat coordinate list
      of its geometry (x, y, z of each point in turn), and the Date.now()
      reading taken when it was made. */
  datatype Lightning = Lightning(id: nat, positions: seq<real>, birthTime: int)

  /** Every value is one Math.random would return. */
  predicate UnitDraws(draws: seq<real>) {
    forall i :: 0 <= i < |draws| ==> 0.0 <= draws[i] < 1.0
  }

  /** Point i of the path the draws describe: the start point
      ((r - 0.5) * 10, 5, (r - 0.5) * 10), then steps that move x and z by
      (r - 0.5) * 2 and lower y by r * 2. */
  function Point(draws: seq<real>, i: nat): (p: Vec3)
    requires |draws| == PATH_DRAWS && i <= SEGMENTS
    ensures UnitDraws(draws) ==> START_Y - 2.0 * (i as real) <= p.y <= START_Y
  {
    if i == 0 then Vec3((draws[0] - 0.5) * 10.0, START_Y, (draws[1] - 0.5) * 10.0)
    else
      var prev := Point(draws, i - 1);
      var b := 2 + 3 * (i - 1);
      assert UnitDraws(draws) ==> 0.0 <= draws[b + 1] < 1.0;
      Vec3(prev.x + (draws[b] - 0.5) * 2.0, prev.y - draws[b + 1] * 2.0, prev.z + (draws[b + 2] - 0.5) * 2.0)
  }

  /** Point i of a flat coordinate list. */
  function PointOf(positions: seq<real>, i: nat): Vec3
    requires 3 * i + 2 < |positions|
  {
    Vec3(positions[3 * i], positions[3 * i + 1], positions[3 * i + 2])
  }

  /** The first n points of the path, flattened as the geometry stores them. */
  function Path(draws: seq<real>, n: nat): (positions: seq<real>)
    requires |draws| == PATH_DRAWS && n <= POINTS
    ensures |positions| == 3 * n
    ensures forall i :: 0 <= i < n ==> PointOf(positions, i) == Point(draws, i)
  {
    if n == 0 then []
    else
      var before := Path(draws, n - 1);
      var p := Point(draws, n - 1);
      assert forall i :: 0 <= i < n - 1 ==> PointOf(before + [p.x, p.y, p.z], i) == PointOf(before, i);
      before + [p.x, p.y, p.z]
  }

  /** Each step of a bolt goes down (or stays level), never up: point j is no
      higher than point i when i <= j, and no point is above the start. */
  lemma {:induction false} Descends(draws: seq<real>, i: nat, j: nat)
    requires |draws| == PATH_DRAWS && UnitDraws(draws) && i <= j <= SEGMENTS
    ensures Point(draws, j).y <= Point(draws, i).y <= START_Y
  {
    if i < j {
      Descends(draws, i, j - 1);
      assert 0.0 <= draws[3 + 3 * (j - 1)];
    } else if i > 0 {
      Descends(draws, 0, i);
    }
  }

  /** The start point lies within 5 of the vertical axis in x and in z; after
      i steps a bolt has drifted at most i from it in x and in z, and has
      dropped less than 2 * i. */
  lemma {:induction false} Reach(draws: seq<real>, i: nat)
    requires |draws| == PATH_DRAWS && UnitDraws(draws) && i <= SEGMENTS
    ensures i > 0 ==> Abs(Point(draws, i).x - Point(draws, 0).x) <= i as real
    ensures i > 0 ==> Abs(Point(draws, i).z - Point(draws, 0).z) <= i as real
    ensures i > 0 ==> START_Y - Point(draws, i).y < 2.0 * (i as real)
    ensures -5.0 <= Point(draws, 0).x < 5.0 && -5.0 <= Point(draws, 0).z < 5.0
  {
    if i > 0 {
      Reach(draws, i - 1);
      var b := 2 + 3 * (i - 1);
      assert 0.0 <= draws[b] < 1.0 && 0.0 <= draws[b + 1] < 1.0 && 0.0 <= draws[b + 2] < 1.0;
    }
  }

  /** The flattened path of a bolt holds eleven points (33 numbers), starts
      at height START_Y, and never rises from one point to the next. */
  lemma PathShape(draws: seq<real>)
    requires |draws| == PATH_DRAWS && UnitDraws(draws)
    ensures |Path(draws, POINTS)| == 3 * POINTS
    ensures Path(draws, POINTS)[1] == START_Y
    ensures forall i :: 0 < i <= SEGMENTS ==>
      PointOf(Path(draws, POINTS), i).y <= PointOf(Path(draws, POINTS), i - 1).y
  {
    var positions := Path(draws, POINTS);
    assert PointOf(positions, 0) == Point(draws, 0);
    forall i | 0 < i <= SEGMENTS
      ensures PointOf(positions, i).y <= PointOf(positions, i - 1).y
    {
      Descends(draws, i - 1, i);
    }
  }

  /** The loop of createLightning that lays out the bolt's points. */
  method Trace(draws: seq<real>) returns (positions: seq<real>)
    requires |draws| == PATH_DRAWS && UnitDraws(draws)
    ensures positions == Path(draws, POINTS)
    ensures |positions| == 3 * POINTS
    ensures positions[1] == START_Y
    ensures forall i :: 0 < i <= SEGMENTS ==> PointOf(positions, i).y <= PointOf(positions, i - 1).y
  {
    var x, y, z := (draws[0] - 0.5) * 10.0, START_Y, (draws[1] - 0.5) * 10.0;
    positions := [x, y, z];
    for i := 0 to SEGMENTS
      invariant Vec3(x, y, z) == Point(draws, i)
      invariant positions == Path(draws, i + 1)
    {
      x := x + (draws[2 + 3 * i] - 0.5) * 2.0;
      y := y - draws[3 + 3 * i] * 2.0;
      z := z + (draws[4 + 3 * i] - 0.5) * 2.0;
      positions := positions + [x, y, z];
    }
    PathShape(draws);
  }

  /** What one createLightning call reads: its own Date.now() reading and
      the Math.random values of the path. */
  datatype BoltDraw = BoltDraw(clock: int, path: seq<real>) {
    predicate Valid() {
      |path| == PATH_DRAWS && UnitDraws(path)
    }
  }

  /** The bolt createLightning makes from its draws: born at its clock
      reading, with an eleven-point path that starts at height START_Y and
      never rises. */
  function Spawned(id: nat, d: BoltDraw): (b: Lightning)
    requires d.Valid()
    ensures b.id == id && b.birthTime == d.clock
    ensures |b.positions| == 3 * POINTS && b.positions[1] == START_Y
    ensures forall i :: 0 < i <= SEGMENTS ==> PointOf(b.positions, i).y <= PointOf(b.positions, i - 1).y
  {
    PathShape(d.path);
    Lightning(id, Path(d.path, POINTS), d.clock)
  }

  /** The removal condition of updateLightnings: older than LIFETIME at
      `now`, that is, `now` is past the bolt's end of life. */
  predicate Expired(now: int, b: Lightning)
    ensures Expired(now, b) <==> b.birthTime + LIFETIME < now
  {
    now - b.birthTime > LIFETIME
  }

  function ExpiredAt(now: int): Lightning -> bool {
    b => Expired(now, b)
  }

  /** The forEach callback of updateLightnings does not change a bolt: its
      identity, path and birth time stay as they were. */
  function Keep(b: Lightning): (k: Lightning)
    ensures k.id == b.id && k.positions == b.positions && k.birthTime == b.birthTime
  {
    b
  }

  function Id(b: Lightning): nat {
    b.id
  }

  /** The forEach pass of updateLightnings over the pool `bs` at time `now`:
      its callback leaves the bolt as it is and splices it out if it has
      expired. The pass accounts for every bolt of the pool: each id of the
      pool is the id of a kept or a removed bolt, and no other id appears. */
  function Sweep(bs: seq<Lightning>, now: int): (w: SweepState<Lightning>)
    ensures |w.kept| + |w.removed| == |bs|
    ensures Keys(w.kept, Id) + Keys(w.removed, Id) == Keys(bs, Id)
  {
    KeysCover(bs, Keep, ExpiredAt(now), Id);
    Walk(bs, Keep, ExpiredAt(now), |bs|)
  }

  /** The original positions of the bolts the pass keeps, in order. */
  function KeptAt(bs: seq<Lightning>, now: int): seq<nat> {
    Indices(bs, Keep, ExpiredAt(now), |bs|, false)
  }

  /** A bolt is added: there is room, and the frame's draw falls under
      SPAWN_CHANCE. */
  predicate Spawns(kept: seq<Lightning>, chance: real)
    ensures Spawns(kept, chance) <==> |kept| + 1 <= MAX_LIGHTNINGS && chance < SPAWN_CHANCE
  {
    |kept| < MAX_LIGHTNINGS && chance < SPAWN_CHANCE
  }

  /** updateLightnings on the pool `bs` at time `now`, with `chance` the
      frame's Math.random value and `spawn` the bolt createLightning would
      make. */
  function Step(bs: seq<Lightning>, now: int, chance: real, spawn: Lightning): (r: seq<Lightning>)
    ensures |bs| <= MAX_LIGHTNINGS ==> |r| <= MAX_LIGHTNINGS
    ensures |r| <= |bs| + 1
    ensures |Sweep(bs, now).kept| <= |r|
    ensures r[..|Sweep(bs, now).kept|] == Sweep(bs, now).kept
    ensures |r| == |Sweep(bs, now).kept| + 1 <==> Spawns(Sweep(bs, now).kept, chance)
    ensures Spawns(Sweep(bs, now).kept, chance) ==> r[|r| - 1] == spawn
    ensures !Spawns(Sweep(bs, now).kept, chance) ==> r == Sweep(bs, now).kept
  {
    var kept := Sweep(bs, now).kept;
    if Spawns(kept, chance) then kept + [spawn] else kept
  }

  /** Every bolt the pass removes is one of the pool's bolts and is older
      than LIFETIME: a bolt born at T is never removed at a time T + 200 or
      earlier. */
  lemma RemovedBoltsExpired(bs: seq<Lightning>, now: int)
    ensures forall u :: 0 <= u < |Sweep(bs, now).removed| ==>
      Sweep(bs, now).removed[u] in bs && now - Sweep(bs, now).removed[u].birthTime > LIFETIME
  {
    var droppedAt := Indices(bs, Keep, ExpiredAt(now), |bs|, true);
    WalkRemoved(bs, Keep, ExpiredAt(now), |bs|);
    IndicesSound(bs, Keep, ExpiredAt(now), |bs|, true);
    forall u | 0 <= u < |Sweep(bs, now).removed|
      ensures Sweep(bs, now).removed[u] in bs
      ensures now - Sweep(bs, now).removed[u].birthTime > LIFETIME
    {
      assert Sweep(bs, now).removed[u] == bs[droppedAt[u]];
    }
  }

  /** A bolt no older than LIFETIME is never removed. */
  lemma YoungBoltsKept(bs: seq<Lightning>, now: int)
    ensures forall i :: 0 <= i < |bs| && now - bs[i].birthTime <= LIFETIME ==>
      bs[i] in Sweep(bs, now).kept
  {
    WalkKept(bs, Keep, ExpiredAt(now), |bs|);
    IndicesComplete(bs, Keep, ExpiredAt(now), |bs|, false);
    forall i | 0 <= i < |bs| && now - bs[i].birthTime <= LIFETIME
      ensures bs[i] in Sweep(bs, now).kept
    {
      assert !Dropped(bs, Keep, ExpiredAt(now), i);
      assert i in KeptAt(bs, now);
      var t :| 0 <= t < |KeptAt(bs, now)| && KeptAt(bs, now)[t] == i;
      assert Sweep(bs, now).kept[t] == Fate(bs, Keep, ExpiredAt(now), i);
    }
  }

  /** The survivors of the pass are the pool's bolts, unchanged and in their
      original order; one older than LIFETIME survives only when it comes
      right after a bolt the pass removed. */
  lemma SurvivorsUnchanged(bs: seq<Lightning>, now: int)
    ensures |Sweep(bs, now).kept| == |KeptAt(bs, now)|
    ensures forall t, u :: 0 <= t < u < |KeptAt(bs, now)| ==> KeptAt(bs, now)[t] < KeptAt(bs, now)[u]
    ensures forall t :: 0 <= t < |KeptAt(bs, now)| ==>
      KeptAt(bs, now)[t] < |bs| && Sweep(bs, now).kept[t] == bs[KeptAt(bs, now)[t]]
      && (Expired(now, Sweep(bs, now).kept[t]) ==>
            0 < KeptAt(bs, now)[t] && Dropped(bs, Keep, ExpiredAt(now), KeptAt(bs, now)[t] - 1))
  {
    WalkKept(bs, Keep, ExpiredAt(now), |bs|);
    IndicesSound(bs, Keep, ExpiredAt(now), |bs|, false);
    IndicesIncrease(bs, Keep, ExpiredAt(now), |bs|, false);
  }

  /** Two bolts born at the same instant and both expired: the pass removes
      the first, skips the second, and the second stays in the pool although
      it is older than LIFETIME. */
  lemma ExpiredBoltMaySurvive()
    ensures var a := Lightning(0, [], 0);
      var b := Lightning(1, [], 0);
      Sweep([a, b], 300).kept == [b] && Sweep([a, b], 300).removed == [a]
      && Expired(300, b)
  {
    var a := Lightning(0, [], 0);
    var b := Lightning(1, [], 0);
    assert Walk([a, b], Keep, ExpiredAt(300), 1) == SweepState([], [a], true);
  }

  /** The pass as it is meant to be: every bolt is checked, and afterwards
      no bolt older than LIFETIME is left while every younger one stays. */
  function IntendedSweep(bs: seq<Lightning>, now: int): (w: SweepState<Lightning>)
    ensures |w.kept| + |w.removed| == |bs|
    ensures forall u :: 0 <= u < |w.removed| ==> Expired(now, w.removed[u]) && w.removed[u] in bs
    ensures forall t :: 0 <= t < |w.kept| ==> !Expired(now, w.kept[t]) && w.kept[t] in bs
    ensures forall i :: 0 <= i < |bs| && !Expired(now, bs[i]) ==> bs[i] in w.kept
    ensures forall i :: 0 <= i < |bs| && Expired(now, bs[i]) ==> bs[i] in w.removed
  {
    var w := Compact(bs, Keep, ExpiredAt(now), |bs|);
    assert forall i :: 0 <= i < |bs| ==> Keep(bs[i]) == bs[i];
    w
  }

  /** The pool after one updateLightnings call per frame, frame k reading
      the clock at times[k] and drawing chances[k], with spawns[k] the bolt
      createLightning would make. */
  function Run(bs: seq<Lightning>, times: seq<int>, chances: seq<real>, spawns: seq<Lightning>): seq<Lightning>
    requires |times| == |chances| == |spawns|
  {
    if times == [] then bs
    else
      var n := |times| - 1;
      Step(Run(bs, times[..n], chances[..n], spawns[..n]), times[n], chances[n], spawns[n])
  }

  /** From a pool of at most MAX_LIGHTNINGS (the empty one at start-up),
      every sequence of frames keeps it at most MAX_LIGHTNINGS. */
  lemma {:induction false} RunBounded(bs: seq<Lightning>, times: seq<int>, chances: seq<real>, spawns: seq<Lightning>)
    requires |times| == |chances| == |spawns| && |bs| <= MAX_LIGHTNINGS
    ensures |Run(bs, times, chances, spawns)| <= MAX_LIGHTNINGS
  {
    if times != [] {
      var n := |times| - 1;
      RunBounded(bs, times[..n], chances[..n], spawns[..n]);
    }
  }
}
