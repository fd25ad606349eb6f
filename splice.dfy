// JavaScript's Array.prototype.forEach over an array that the callback
// shrinks with splice(index, 1).
//
// forEach fixes the number of indices it will look at (the initial length)
// and then visits index k = 0, 1, ... of the array as it is at that moment,
// skipping an index that no longer exists. A callback that splices out the
// element it was given shifts every later element down by one, so the
// element right after a removed one lands on the index just visited and is
// never handed to the callback in that pass.
//
// The callback of both pools has the same shape: compute `step(x)` from the
// visited element (advance a laser; leave a bolt as it is), and splice the
// element out when `gone(step(x))` holds, otherwise leave `step(x)` in place.

module Splice {

  /** Where a pass stands after the first n original elements: the elements
      left in the array, those spliced out (in order of removal), and whether
      the next original element will be skipped because the one before it
      was just spliced out. */
  datatype SweepState<T> = SweepState(kept: seq<T>, removed: seq<T>, skip: bool)

  /** The pass over s[..n], one original element at a time. */
  function Walk<T>(s: seq<T>, step: T -> T, gone: T -> bool, n: nat): (w: SweepState<T>)
    requires n <= |s|
    ensures |w.kept| + |w.removed| == n
  {
    if n == 0 then SweepState([], [], false)
    else
      var w := Walk(s, step, gone, n - 1);
      var x := s[n - 1];
      if w.skip then SweepState(w.kept + [x], w.removed, false)
      else if gone(step(x)) then SweepState(w.kept, w.removed + [step(x)], true)
      else SweepState(w.kept + [step(x)], w.removed, false)
  }

  /** The pass as it is meant to be: the callback is called on every one of
      the first n elements, and those it marks are taken out afterwards
      (mark, then compact). */
  function Compact<T>(s: seq<T>, step: T -> T, gone: T -> bool, n: nat): (w: SweepState<T>)
    requires n <= |s|
    ensures |w.kept| + |w.removed| == n
    ensures forall t :: 0 <= t < |w.kept| ==>
      !gone(w.kept[t]) && exists i :: 0 <= i < n && w.kept[t] == step(s[i])
    ensures forall u :: 0 <= u < |w.removed| ==>
      gone(w.removed[u]) && exists i :: 0 <= i < n && w.removed[u] == step(s[i])
    ensures forall i :: 0 <= i < n && !gone(step(s[i])) ==> step(s[i]) in w.kept
    ensures forall i :: 0 <= i < n && gone(step(s[i])) ==> step(s[i]) in w.removed
  {
    if n == 0 then SweepState([], [], false)
    else
      var w := Compact(s, step, gone, n - 1);
      var x := step(s[n - 1]);
      if gone(x) then
        assert forall u :: 0 <= u < |w.removed| ==> (w.removed + [x])[u] == w.removed[u];
        SweepState(w.kept, w.removed + [x], false)
      else
        assert forall t :: 0 <= t < |w.kept| ==> (w.kept + [x])[t] == w.kept[t];
        SweepState(w.kept + [x], w.removed, false)
  }

  /** The callback is called on the element that starts at index i: every
      element is, except one whose predecessor was called on and spliced out. */
  predicate Visited<T>(s: seq<T>, step: T -> T, gone: T -> bool, i: nat)
    requires i < |s|
    decreases i
  {
    i == 0 || !(Visited(s, step, gone, i - 1) && gone(step(s[i - 1])))
  }

  /** The element that starts at index i is spliced out. */
  predicate Dropped<T>(s: seq<T>, step: T -> T, gone: T -> bool, i: nat)
    requires i < |s|
  {
    Visited(s, step, gone, i) && gone(step(s[i]))
  }

  /** What the element that starts at index i looks like after the pass,
      when it is not dropped: stepped if visited, untouched if skipped. */
  function Fate<T>(s: seq<T>, step: T -> T, gone: T -> bool, i: nat): T
    requires i < |s|
  {
    if Visited(s, step, gone, i) then step(s[i]) else s[i]
  }

  /** The original indices below n that are dropped (or, with dropped ==
      false, kept), in increasing order. */
  function Indices<T>(s: seq<T>, step: T -> T, gone: T -> bool, n: nat, dropped: bool): (r: seq<nat>)
    requires n <= |s|
    ensures forall t :: 0 <= t < |r| ==> r[t] < n
  {
    if n == 0 then []
    else
      var before := Indices(s, step, gone, n - 1, dropped);
      if Dropped(s, step, gone, n - 1) == dropped then before + [n - 1] else before
  }

  /** Indices lists only indices whose element is dropped (or kept). */
  lemma {:induction false} IndicesSound<T>(s: seq<T>, step: T -> T, gone: T -> bool, n: nat, dropped: bool)
    requires n <= |s|
    ensures forall t :: 0 <= t < |Indices(s, step, gone, n, dropped)| ==>
      Dropped(s, step, gone, Indices(s, step, gone, n, dropped)[t]) == dropped
  {
    if n > 0 {
      IndicesSound(s, step, gone, n - 1, dropped);
      var before := Indices(s, step, gone, n - 1, dropped);
      if Dropped(s, step, gone, n - 1) == dropped {
        var r := before + [n - 1];
        assert Indices(s, step, gone, n, dropped) == r;
        assert forall t :: 0 <= t < |before| ==> r[t] == before[t];
        assert r[|before|] == n - 1;
      } else {
        assert Indices(s, step, gone, n, dropped) == before;
      }
    }
  }

  /** Indices lists every index below n whose element is dropped (or kept). */
  lemma {:induction false} IndicesComplete<T>(s: seq<T>, step: T -> T, gone: T -> bool, n: nat, dropped: bool)
    requires n <= |s|
    ensures forall i :: 0 <= i < n && Dropped(s, step, gone, i) == dropped ==>
      i in Indices(s, step, gone, n, dropped)
  {
    if n > 0 {
      IndicesComplete(s, step, gone, n - 1, dropped);
    }
  }

  /** Indices lists indices in strictly increasing order. */
  lemma {:induction false} IndicesIncrease<T>(s: seq<T>, step: T -> T, gone: T -> bool, n: nat, dropped: bool)
    requires n <= |s|
    ensures forall t, u :: 0 <= t < u < |Indices(s, step, gone, n, dropped)| ==>
      Indices(s, step, gone, n, dropped)[t] < Indices(s, step, gone, n, dropped)[u]
  {
    if n > 0 {
      IndicesIncrease(s, step, gone, n - 1, dropped);
      var before := Indices(s, step, gone, n - 1, dropped);
      if Dropped(s, step, gone, n - 1) == dropped {
        var r := before + [n - 1];
        assert Indices(s, step, gone, n, dropped) == r;
        assert forall t :: 0 <= t < |before| ==> r[t] == before[t];
        assert r[|before|] == n - 1;
      } else {
        assert Indices(s, step, gone, n, dropped) == before;
      }
    }
  }

  /** One more original element, passed over. */
  lemma WalkSkips<T>(s: seq<T>, step: T -> T, gone: T -> bool, j: nat, kept: seq<T>, removed: seq<T>)
    requires j < |s| && Walk(s, step, gone, j) == SweepState(kept, removed, true)
    ensures Walk(s, step, gone, j + 1) == SweepState(kept + [s[j]], removed, false)
  {
  }

  /** One more original element, handed to the callback. */
  lemma WalkVisits<T>(s: seq<T>, step: T -> T, gone: T -> bool, j: nat, kept: seq<T>, removed: seq<T>)
    requires j < |s| && Walk(s, step, gone, j) == SweepState(kept, removed, false)
    ensures Walk(s, step, gone, j + 1)
      == if gone(step(s[j])) then SweepState(kept, removed + [step(s[j])], true)
         else SweepState(kept + [step(s[j])], removed, false)
  {
  }

  /** The pass skips the next element exactly when it has just dropped one. */
  lemma {:induction false} WalkSkipsAfterDrop<T>(s: seq<T>, step: T -> T, gone: T -> bool, n: nat)
    requires n <= |s|
    ensures Walk(s, step, gone, n).skip == (n > 0 && Dropped(s, step, gone, n - 1))
  {
    if n > 0 {
      WalkSkipsAfterDrop(s, step, gone, n - 1);
    }
  }

  /** What the pass keeps: exactly the originals that are not dropped, in
      their original order, each in its Fate. */
  lemma {:induction false} WalkKept<T>(s: seq<T>, step: T -> T, gone: T -> bool, n: nat)
    requires n <= |s|
    ensures |Walk(s, step, gone, n).kept| == |Indices(s, step, gone, n, false)|
    ensures forall t :: 0 <= t < |Indices(s, step, gone, n, false)| ==>
      Walk(s, step, gone, n).kept[t] == Fate(s, step, gone, Indices(s, step, gone, n, false)[t])
  {
    if n > 0 {
      WalkKept(s, step, gone, n - 1);
      WalkSkipsAfterDrop(s, step, gone, n - 1);
      var w := Walk(s, step, gone, n - 1);
      var keptBefore := Indices(s, step, gone, n - 1, false);
      if Dropped(s, step, gone, n - 1) {
        assert Walk(s, step, gone, n).kept == w.kept by {
          WalkVisits(s, step, gone, n - 1, w.kept, w.removed);
        }
        assert Indices(s, step, gone, n, false) == keptBefore;
      } else {
        var x := Fate(s, step, gone, n - 1);
        assert Walk(s, step, gone, n).kept == w.kept + [x] by {
          if w.skip {
            WalkSkips(s, step, gone, n - 1, w.kept, w.removed);
          } else {
            WalkVisits(s, step, gone, n - 1, w.kept, w.removed);
          }
        }
        assert Indices(s, step, gone, n, false) == keptBefore + [n - 1];
        forall t | 0 <= t < |keptBefore|
          ensures (w.kept + [x])[t] == Fate(s, step, gone, (keptBefore + [n - 1])[t])
        {
          assert (w.kept + [x])[t] == w.kept[t];
        }
      }
    }
  }

  /** What the pass removes: exactly the dropped originals, in their original
      order, each stepped. */
  lemma {:induction false} WalkRemoved<T>(s: seq<T>, step: T -> T, gone: T -> bool, n: nat)
    requires n <= |s|
    ensures |Walk(s, step, gone, n).removed| == |Indices(s, step, gone, n, true)|
    ensures forall t :: 0 <= t < |Indices(s, step, gone, n, true)| ==>
      Walk(s, step, gone, n).removed[t] == step(s[Indices(s, step, gone, n, true)[t]])
  {
    if n > 0 {
      WalkRemoved(s, step, gone, n - 1);
      WalkSkipsAfterDrop(s, step, gone, n - 1);
      var w := Walk(s, step, gone, n - 1);
      var droppedBefore := Indices(s, step, gone, n - 1, true);
      if w.skip {
        WalkSkips(s, step, gone, n - 1, w.kept, w.removed);
        assert Indices(s, step, gone, n, true) == droppedBefore;
      } else {
        WalkVisits(s, step, gone, n - 1, w.kept, w.removed);
        if Dropped(s, step, gone, n - 1) {
          assert Indices(s, step, gone, n, true) == droppedBefore + [n - 1];
        } else {
          assert Indices(s, step, gone, n, true) == droppedBefore;
        }
      }
    }
  }

  /** The keys of the elements of s. */
  ghost function Keys<T, K>(s: seq<T>, key: T -> K): set<K> {
    set i | 0 <= i < |s| :: key(s[i])
  }

  /** No two elements of s share a key. */
  ghost predicate DistinctKeys<T, K>(s: seq<T>, key: T -> K) {
    forall i, j :: 0 <= i < j < |s| ==> key(s[i]) != key(s[j])
  }

  /** Appending an element adds its key, and keeps the keys distinct when
      the key is new. */
  lemma KeysAppend<T, K>(s: seq<T>, x: T, key: T -> K)
    ensures Keys(s + [x], key) == Keys(s, key) + {key(x)}
    ensures DistinctKeys(s, key) && key(x) !in Keys(s, key) ==> DistinctKeys(s + [x], key)
  {
    forall k | k in Keys(s, key) ensures k in Keys(s + [x], key) {
      var i :| 0 <= i < |s| && key(s[i]) == k;
      assert (s + [x])[i] == s[i];
    }
    assert (s + [x])[|s|] == x;
  }

  /** The key of each element the pass keeps or removes is that of the
      original it came from, when `step` keeps keys. */
  lemma WalkKeysOrigin<T, K>(s: seq<T>, step: T -> T, gone: T -> bool, key: T -> K)
    requires forall x :: key(step(x)) == key(x)
    ensures |Walk(s, step, gone, |s|).kept| == |Indices(s, step, gone, |s|, false)|
    ensures |Walk(s, step, gone, |s|).removed| == |Indices(s, step, gone, |s|, true)|
    ensures forall t :: 0 <= t < |Indices(s, step, gone, |s|, false)| ==>
      key(Walk(s, step, gone, |s|).kept[t]) == key(s[Indices(s, step, gone, |s|, false)[t]])
    ensures forall u :: 0 <= u < |Indices(s, step, gone, |s|, true)| ==>
      key(Walk(s, step, gone, |s|).removed[u]) == key(s[Indices(s, step, gone, |s|, true)[u]])
  {
    WalkKept(s, step, gone, |s|);
    WalkRemoved(s, step, gone, |s|);
    forall t | 0 <= t < |Indices(s, step, gone, |s|, false)|
      ensures key(Walk(s, step, gone, |s|).kept[t]) == key(s[Indices(s, step, gone, |s|, false)[t]])
    {
      assert Walk(s, step, gone, |s|).kept[t] == Fate(s, step, gone, Indices(s, step, gone, |s|, false)[t]);
    }
  }

  /** When `step` keeps a key and the keys of s are distinct, the pass keeps
      the keys distinct, never keeps and removes the same key, and accounts
      for every key of s, inventing none. */
  lemma WalkKeys<T, K>(s: seq<T>, step: T -> T, gone: T -> bool, key: T -> K)
    requires forall x :: key(step(x)) == key(x)
    requires DistinctKeys(s, key)
    ensures DistinctKeys(Walk(s, step, gone, |s|).kept, key)
    ensures Keys(Walk(s, step, gone, |s|).kept, key) !! Keys(Walk(s, step, gone, |s|).removed, key)
    ensures Keys(Walk(s, step, gone, |s|).kept, key) + Keys(Walk(s, step, gone, |s|).removed, key) == Keys(s, key)
  {
    KeysDistinct(s, step, gone, key);
    KeysDisjoint(s, step, gone, key);
    KeysCover(s, step, gone, key);
  }

  /** The kept elements have distinct keys. */
  lemma KeysDistinct<T, K>(s: seq<T>, step: T -> T, gone: T -> bool, key: T -> K)
    requires forall x :: key(step(x)) == key(x)
    requires DistinctKeys(s, key)
    ensures DistinctKeys(Walk(s, step, gone, |s|).kept, key)
  {
    var w := Walk(s, step, gone, |s|);
    var keptAt := Indices(s, step, gone, |s|, false);
    WalkKeysOrigin(s, step, gone, key);
    IndicesIncrease(s, step, gone, |s|, false);
    forall t, u | 0 <= t < u < |w.kept|
      ensures key(w.kept[t]) != key(w.kept[u])
    {
      assert keptAt[t] < keptAt[u];
    }
  }

  /** No key is both kept and removed. */
  lemma KeysDisjoint<T, K>(s: seq<T>, step: T -> T, gone: T -> bool, key: T -> K)
    requires forall x :: key(step(x)) == key(x)
    requires DistinctKeys(s, key)
    ensures Keys(Walk(s, step, gone, |s|).kept, key) !! Keys(Walk(s, step, gone, |s|).removed, key)
  {
    var w := Walk(s, step, gone, |s|);
    var keptAt := Indices(s, step, gone, |s|, false);
    var droppedAt := Indices(s, step, gone, |s|, true);
    WalkKeysOrigin(s, step, gone, key);
    IndicesSound(s, step, gone, |s|, false);
    IndicesSound(s, step, gone, |s|, true);
    forall t, u | 0 <= t < |w.kept| && 0 <= u < |w.removed|
      ensures key(w.kept[t]) != key(w.removed[u])
    {
      assert keptAt[t] != droppedAt[u];
    }
  }

  /** Every key of s is the key of a kept or a removed element, and only those. */
  lemma KeysCover<T, K>(s: seq<T>, step: T -> T, gone: T -> bool, key: T -> K)
    requires forall x :: key(step(x)) == key(x)
    ensures Keys(Walk(s, step, gone, |s|).kept, key) + Keys(Walk(s, step, gone, |s|).removed, key) == Keys(s, key)
  {
    var w := Walk(s, step, gone, |s|);
    var keptAt := Indices(s, step, gone, |s|, false);
    var droppedAt := Indices(s, step, gone, |s|, true);
    WalkKeysOrigin(s, step, gone, key);
    IndicesComplete(s, step, gone, |s|, false);
    IndicesComplete(s, step, gone, |s|, true);
    forall k | k in Keys(s, key)
      ensures k in Keys(w.kept, key) + Keys(w.removed, key)
    {
      var i :| 0 <= i < |s| && key(s[i]) == k;
      if Dropped(s, step, gone, i) {
        var u :| 0 <= u < |droppedAt| && droppedAt[u] == i;
        assert key(w.removed[u]) == k;
      } else {
        var t :| 0 <= t < |keptAt| && keptAt[t] == i;
        assert key(w.kept[t]) == k;
      }
    }
    forall k | k in Keys(w.kept, key) + Keys(w.removed, key)
      ensures k in Keys(s, key)
    {
      if k in Keys(w.kept, key) {
        var t :| 0 <= t < |w.kept| && key(w.kept[t]) == k;
        assert key(s[keptAt[t]]) == k;
      } else {
        var u :| 0 <= u < |w.removed| && key(w.removed[u]) == k;
        assert key(s[droppedAt[u]]) == k;
      }
    }
  }

  /** The array during the pass is `done` followed by the originals from
      index j on; what index |done| holds, and the array after passing it
      over, splicing it out or writing x there. */
  lemma SpliceAt<T>(arr: seq<T>, done: seq<T>, s: seq<T>, j: nat, x: T)
    requires j < |s| && arr == done + s[j..]
    ensures arr[|done|] == s[j]
    ensures arr == (done + [s[j]]) + s[j + 1..]
    ensures arr[..|done|] + arr[|done| + 1..] == done + s[j + 1..]
    ensures arr[|done| := x] == (done + [x]) + s[j + 1..]
  {
    assert arr[..|done|] == done;
    assert arr[|done| + 1..] == s[j + 1..];
  }

  /** forEach over the array as it stands, with the callback splicing out in
      place: k runs over the initial length and an index the array no longer
      has is skipped. */
  method ForEachSplice<T>(s: seq<T>, step: T -> T, gone: T -> bool) returns (arr: seq<T>, removed: seq<T>)
    ensures arr == Walk(s, step, gone, |s|).kept
    ensures removed == Walk(s, step, gone, |s|).removed
  {
    arr, removed := s, [];
    var k := 0;
    // the original elements dealt with so far, and what became of them; an
    // element that will be skipped counts as dealt with as soon as the one
    // before it is spliced out
    ghost var j, kept, skip := 0, [], false;
    while k < |s|
      invariant j <= |s| && k <= |s|
      invariant Walk(s, step, gone, j) == SweepState(kept, removed, skip)
      invariant arr == kept + s[j..]
      invariant |kept| <= k && (k == |kept| || j == |s|)
      invariant skip ==> j == |s|
    {
      if k < |arr| {
        WalkVisits(s, step, gone, j, kept, removed);
        SpliceAt(arr, kept, s, j, step(s[j]));
        var x := step(arr[k]);
        if gone(x) {
          removed := removed + [x];
          arr := arr[..k] + arr[k + 1..];
          j, skip := j + 1, true;
          if j < |s| {
            // the element that moves onto index k is never handed to the callback
            WalkSkips(s, step, gone, j, kept, removed);
            SpliceAt(arr, kept, s, j, s[j]);
            j, kept, skip := j + 1, kept + [s[j]], false;
          }
        } else {
          arr := arr[k := x];
          j, kept := j + 1, kept + [x];
        }
      }
      k := k + 1;
    }
  }
}
