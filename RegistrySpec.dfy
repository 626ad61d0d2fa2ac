/** The registry's list operations and one pass of its Update loop, as
    functions over a list of tween identities and a "world" map from each
    identity to its tween's fields. `Registry.ETween` is proved to follow
    these functions; the identities there are the Tween objects. */
module RegistrySpec {
  import opened Easing
  import opened TweenSpec

  /** What the callbacks run during one OnTick do to the registry's list,
      given its length and the loop index: the positions, in the list as it
      was, of the tweens registered afterwards, in their new order. So
      callbacks may remove, reorder or repeat registered tweens, but
      register no new one. */
  type Reentry = (nat, int) -> seq<int>

  function Members<K>(s: seq<K>): set<K>
  {
    set x | x in s
  }

  /** Every position a reentry names lies inside the list. */
  ghost predicate InRange(reenter: Reentry)
  {
    forall n: nat, i: int, j :: 0 <= j < |reenter(n, i)| ==> 0 <= reenter(n, i)[j] < n
  }

  /** The callbacks leave the list alone. */
  ghost predicate Inert(reenter: Reentry)
  {
    forall n: nat, i: int :: reenter(n, i) == Positions(n)
  }

  function Positions(n: nat): (ps: seq<int>)
    ensures |ps| == n && forall j :: 0 <= j < n ==> ps[j] == j
  {
    seq(n, j => j)
  }

  /** The list after the callbacks: the tweens at positions `ps`. */
  function Rearranged<K>(s: seq<K>, ps: seq<int>): (r: seq<K>)
    requires forall j :: 0 <= j < |ps| ==> 0 <= ps[j] < |s|
    ensures |r| == |ps| && Members(r) <= Members(s)
    ensures forall j :: 0 <= j < |ps| ==> r[j] == s[ps[j]]
  {
    seq(|ps|, j requires 0 <= j < |ps| => s[ps[j]])
  }

  predicate Distinct<K(==)>(s: seq<K>)
  {
    forall j, k :: 0 <= j < k < |s| ==> s[j] != s[k]
  }

  /** Every listed tween has fields, and all fields are well formed. */
  predicate WorldOk<K>(s: seq<K>, w: map<K, TweenData>)
  {
    (forall x :: x in s ==> x in w) && forall x :: x in w ==> WellFormed(w[x])
  }

  /** List.RemoveAt: the element at `i` goes, the ones after it move down
      by one place. */
  function RemoveAt<K>(s: seq<K>, i: int): (r: seq<K>)
    requires 0 <= i < |s|
    ensures |r| == |s| - 1
    ensures forall j :: 0 <= j < i ==> r[j] == s[j]
    ensures forall j :: i <= j < |r| ==> r[j] == s[j + 1]
  {
    s[..i] + s[i + 1..]
  }

  /** List.Remove: drop the first occurrence of `x`, if any. */
  function RemoveFirst<K(==)>(s: seq<K>, x: K): (r: seq<K>)
    ensures x !in s ==> r == s
    ensures x in s ==> |r| == |s| - 1
  {
    if s == [] then []
    else if s[0] == x then
      assert s == [s[0]] + s[1..];
      s[1..]
    else
      assert s == [s[0]] + s[1..];
      [s[0]] + RemoveFirst(s[1..], x)
  }

  /** RemoveFirst removes the element at the first index holding `x` and
      keeps every other element in its order. */
  lemma {:induction false} RemoveFirstSplits<K>(s: seq<K>, x: K) returns (k: nat)
    requires x in s
    ensures k < |s| && s[k] == x && x !in s[..k]
    ensures RemoveFirst(s, x) == RemoveAt(s, k)
    decreases |s|
  {
    if s[0] == x {
      k := 0;
      assert RemoveAt(s, 0) == s[1..];
    } else {
      var tail := s[1..];
      var k' := RemoveFirstSplits(tail, x);
      k := k' + 1;
      assert s[..k] == [s[0]] + tail[..k'];
      assert s[k + 1..] == tail[k' + 1..];
      calc {
        RemoveFirst(s, x);
        [s[0]] + RemoveFirst(tail, x);
        [s[0]] + (tail[..k'] + tail[k' + 1..]);
        ([s[0]] + tail[..k']) + tail[k' + 1..];
        RemoveAt(s, k);
      }
    }
  }

  /** The tweens of `s` that are Playing in `w`, in their order in `s`. */
  function Keep<K>(s: seq<K>, w: map<K, TweenData>): seq<K>
    requires forall x :: x in s ==> x in w
  {
    if s == [] then []
    else Keep(s[..|s| - 1], w) + (if Active(w[s[|s| - 1]]) then [s[|s| - 1]] else [])
  }

  /** `w` after ticking each tween of `xs` once. */
  function TickAll<K>(lib: Library, dt: real, w: map<K, TweenData>, xs: seq<K>): (r: map<K, TweenData>)
    requires dt >= 0.0 && forall x :: x in w ==> WellFormed(w[x])
    ensures r.Keys == w.Keys
  {
    map k | k in w :: if k in xs then Tick(lib, w[k], dt) else w[k]
  }

  /** How one pass of Update ends: normally, or by the exception List's
      indexer throws for an index past the end of the list. */
  datatype Outcome = Ok | ArgumentOutOfRange(index: int)

  datatype FrameResult<K> = FrameResult(outcome: Outcome, tweens: seq<K>, world: map<K, TweenData>)

  /** The Update loop from index `i` down to 0, as written: read tweens[i]
      (which throws when `i` is past the end), tick it, let its callbacks
      act on the list, and remove index `i` if the tick reported the tween
      inactive, `i` is still in range and the tween is still at `i`. */
  function Sweep<K(==)>(lib: Library, dt: real, s: seq<K>, w: map<K, TweenData>, i: int, reenter: Reentry): (r: FrameResult<K>)
    requires dt >= 0.0 && InRange(reenter) && WorldOk(s, w)
    ensures r.world.Keys == w.Keys && WorldOk(r.tweens, r.world)
    ensures Members(r.tweens) <= Members(s)
    ensures r.outcome.ArgumentOutOfRange? ==> 0 <= |r.tweens| <= r.outcome.index <= i
    decreases i
  {
    if i < 0 then FrameResult(Ok, s, w)
    else if i >= |s| then FrameResult(ArgumentOutOfRange(i), s, w)
    else
      var t := s[i];
      var d := Tick(lib, w[t], dt);
      var s1 := Rearranged(s, reenter(|s|, i));
      var s2 := if !Active(d) && i < |s1| && s1[i] == t then RemoveAt(s1, i) else s1;
      assert Members(s2) <= Members(s1) <= Members(s);
      Sweep(lib, dt, s2, w[t := d], i - 1, reenter)
  }

  lemma SplitAt<K>(s: seq<K>, i: int)
    requires 0 <= i < |s|
    ensures s[..i + 1] == s[..i] + [s[i]] && s[..i + 1][..i] == s[..i]
    ensures s[i..] == [s[i]] + s[i + 1..]
  {
  }

  /** Keep decides on the last tween of the list last. */
  lemma KeepSnoc<K>(xs: seq<K>, t: K, w: map<K, TweenData>)
    requires (forall x :: x in xs ==> x in w) && t in w
    ensures Keep(xs + [t], w) == Keep(xs, w) + (if Active(w[t]) then [t] else [])
  {
    assert (xs + [t])[..|xs|] == xs;
  }

  /** Removing an element keeps a list free of repeats, keeps the elements
      before it and shifts those after it down by one. */
  lemma RemoveAtFacts<K>(s: seq<K>, i: int)
    requires 0 <= i < |s|
    ensures RemoveAt(s, i)[..i] == s[..i] && RemoveAt(s, i)[i..] == s[i + 1..]
    ensures Members(RemoveAt(s, i)) <= Members(s)
    ensures Distinct(s) ==> Distinct(RemoveAt(s, i))
  {
    var s2 := RemoveAt(s, i);
    assert s2[..i] == s[..i] && s2[i..] == s[i + 1..];
    forall j | 0 <= j < |s2| ensures s2[j] == s[if j < i then j else j + 1] {
    }
    if Distinct(s) {
      forall j, k | 0 <= j < k < |s2| ensures s2[j] != s2[k] {
        var j', k' := if j < i then j else j + 1, if k < i then k else k + 1;
        assert s2[j] == s[j'] && s2[k] == s[k'];
      }
    }
  }

  /** Ticking one more tween, not yet ticked, extends TickAll by it. */
  lemma TickAllStep<K>(lib: Library, dt: real, w: map<K, TweenData>, xs: seq<K>, t: K)
    requires dt >= 0.0 && (forall x :: x in w ==> WellFormed(w[x])) && t in w && t !in xs
    ensures TickAll(lib, dt, w[t := Tick(lib, w[t], dt)], xs) == TickAll(lib, dt, w, xs + [t])
  {
  }

  /** One inert step of Sweep: the tween at `i` is ticked and removed when it
      stopped playing; the part of the list below `i` is untouched. */
  lemma SweepInertStep<K>(lib: Library, dt: real, s: seq<K>, w: map<K, TweenData>, i: int, reenter: Reentry)
    requires dt >= 0.0 && InRange(reenter) && Inert(reenter) && WorldOk(s, w) && Distinct(s)
    requires 0 <= i < |s|
    ensures var d := Tick(lib, w[s[i]], dt);
      var s2 := if !Active(d) then RemoveAt(s, i) else s;
      && Sweep(lib, dt, s, w, i, reenter) == Sweep(lib, dt, s2, w[s[i] := d], i - 1, reenter)
      && Distinct(s2) && WorldOk(s2, w[s[i] := d]) && s2[..i] == s[..i]
      && s2[i..] == (if Active(d) then s[i..] else s[i + 1..])
  {
    var t := s[i];
    var d := Tick(lib, w[t], dt);
    var s1 := Rearranged(s, reenter(|s|, i));
    assert s1 == s by {
      assert reenter(|s|, i) == Positions(|s|);
    }
    var s2 := if !Active(d) then RemoveAt(s, i) else s;
    RemoveAtFacts(s, i);
    WorldOkAfter(s, s2, w, t, d);
  }

  /** How one inert step extends the kept part of the list. */
  lemma KeepStep<K>(s: seq<K>, i: int, w: map<K, TweenData>, rest: seq<K>)
    requires 0 <= i < |s| && forall x :: x in s ==> x in w
    requires var s2 := if Active(w[s[i]]) then s else RemoveAt(s, i);
      rest == Keep(s[..i], w) + s2[i..]
    ensures rest == Keep(s[..i + 1], w) + s[i + 1..]
  {
    var t := s[i];
    SplitAt(s, i);
    KeepSnoc(s[..i], t, w);
    if Active(w[t]) {
      calc {
        rest;
        Keep(s[..i], w) + ([t] + s[i + 1..]);
        (Keep(s[..i], w) + [t]) + s[i + 1..];
      }
    } else {
      RemoveAtFacts(s, i);
    }
  }

  lemma SweepEnd<K>(lib: Library, dt: real, s: seq<K>, w: map<K, TweenData>, reenter: Reentry)
    requires dt >= 0.0 && InRange(reenter) && WorldOk(s, w)
    ensures var r := Sweep(lib, dt, s, w, -1, reenter);
      && r.outcome == Ok
      && r.world == TickAll(lib, dt, w, s[..0])
      && r.tweens == Keep(s[..0], r.world) + s[0..]
  {
    assert s[..0] == [];
    assert TickAll(lib, dt, w, []) == w;
    assert s[0..] == s;
  }

  /** With callbacks that leave the list alone and no tween listed twice, the
      pass from index `i` down to 0 ends normally, ticks each of s[0..i]
      exactly once, removes those of them that are no longer Playing and
      keeps the rest of the list as it was. */
  lemma {:induction false} SweepInertFilters<K>(lib: Library, dt: real, s: seq<K>, w: map<K, TweenData>, i: int, reenter: Reentry)
    requires dt >= 0.0 && InRange(reenter) && Inert(reenter) && WorldOk(s, w) && Distinct(s)
    requires -1 <= i < |s|
    ensures var r := Sweep(lib, dt, s, w, i, reenter);
      && r.outcome == Ok
      && r.world == TickAll(lib, dt, w, s[..i + 1])
      && r.tweens == Keep(s[..i + 1], r.world) + s[i + 1..]
    decreases i + 1
  {
    if i < 0 {
      SweepEnd(lib, dt, s, w, reenter);
    } else {
      var t := s[i];
      var d := Tick(lib, w[t], dt);
      var s2 := if !Active(d) then RemoveAt(s, i) else s;
      SweepInertStep(lib, dt, s, w, i, reenter);
      SweepInertFilters(lib, dt, s2, w[t := d], i - 1, reenter);
      var r := Sweep(lib, dt, s2, w[t := d], i - 1, reenter);
      SplitAt(s, i);
      NotBefore(s, i);
      assert r.world == TickAll(lib, dt, w, s[..i + 1]) by {
        TickAllStep(lib, dt, w, s[..i], t);
      }
      assert r.world[t] == d;
      KeepStep(s, i, r.world, r.tweens);
    }
  }

  /** One whole pass over a list without repeats, with callbacks that leave
      the list alone: every tween is ticked once, and the list left is the
      original one filtered to the tweens still Playing, in their order. */
  lemma WholeSweepInert<K>(lib: Library, dt: real, s: seq<K>, w: map<K, TweenData>, reenter: Reentry)
    requires dt >= 0.0 && InRange(reenter) && WorldOk(s, w)
    ensures Distinct(s) && Inert(reenter) ==>
      var r := Sweep(lib, dt, s, w, |s| - 1, reenter);
      && r.outcome == Ok
      && r.world == TickAll(lib, dt, w, s)
      && r.tweens == Keep(s, r.world)
  {
    if Distinct(s) && Inert(reenter) {
      SweepInertFilters(lib, dt, s, w, |s| - 1, reenter);
      assert s[..|s|] == s && s[|s|..] == [];
    }
  }

  /** A frame long enough for every registered tween to reach its duration,
      with callbacks that leave the list alone and no tween listed twice,
      empties the registry: every tween ends Stopped, and one that was
      Playing or Paused with onComplete set has it fired exactly once. A
      tween that was never played fires nothing. Unlisted tweens are left
      alone. */
  lemma FrameBeyondAllDurations<K>(lib: Library, dt: real, s: seq<K>, w: map<K, TweenData>, reenter: Reentry)
    requires dt >= 0.0 && InRange(reenter) && WorldOk(s, w)
    requires Inert(reenter) && Distinct(s)
    requires forall x :: x in s ==> w[x].currentTime + dt >= w[x].duration
    ensures var r := Sweep(lib, dt, s, w, |s| - 1, reenter);
      && r.outcome == Ok && r.tweens == []
      && (forall x :: x in s ==>
            && r.world[x].state == Stopped
            && Completions(r.world[x].callbacks)
               == Completions(w[x].callbacks) + (if w[x].state != Stopped && w[x].onComplete then 1 else 0))
      && forall x :: x in w && x !in s ==> r.world[x] == w[x]
  {
    WholeSweepInert(lib, dt, s, w, reenter);
    var r := Sweep(lib, dt, s, w, |s| - 1, reenter);
    forall x | x in s
      ensures r.world[x].state == Stopped
      ensures Completions(r.world[x].callbacks)
              == Completions(w[x].callbacks) + (if w[x].state != Stopped && w[x].onComplete then 1 else 0)
    {
      TickReachingDuration(lib, w[x], dt);
      CompletionsAppend(w[x].callbacks, if w[x].state != Stopped && w[x].onComplete then [OnComplete] else []);
    }
    KeepNone(s, r.world);
  }

  lemma CompletionsAppend(calls: seq<Callback>, more: seq<Callback>)
    requires more == [] || more == [OnComplete]
    ensures Completions(calls + more) == Completions(calls) + |more|
  {
    assert multiset(calls + more) == multiset(calls) + multiset(more);
  }

  /** No Playing tween in the list, none kept. */
  lemma {:induction false} KeepNone<K>(s: seq<K>, w: map<K, TweenData>)
    requires forall x :: x in s ==> x in w && !Active(w[x])
    ensures Keep(s, w) == []
    decreases |s|
  {
    if s != [] {
      var init := s[..|s| - 1];
      assert forall x :: x in init ==> x in s;
      KeepNone(init, w);
    }
  }

  /** Giving one tween new well-formed fields, or listing fewer tweens,
      keeps the world consistent with the list. */
  lemma WorldOkAfter<K>(s: seq<K>, s': seq<K>, w: map<K, TweenData>, t: K, d: TweenData)
    requires WorldOk(s, w) && t in w && WellFormed(d) && Members(s') <= Members(s)
    ensures WorldOk(s', w[t := d])
  {
    forall x | x in s' ensures x in w[t := d] {
      assert x in Members(s');
    }
  }

  /** RemoveFirst takes exactly one occurrence of `x` out of the list, if it
      has one, and nothing else. */
  lemma {:induction false} RemoveFirstCounts<K>(s: seq<K>, x: K)
    ensures multiset(RemoveFirst(s, x)) == multiset(s) - multiset{x}
    decreases |s|
  {
    if s != [] {
      assert s == [s[0]] + s[1..];
      RemoveFirstCounts(s[1..], x);
    }
  }

  lemma RemoveFirstKeeps<K>(s: seq<K>, x: K, y: K)
    requires y in RemoveFirst(s, x)
    ensures y in s
  {
    RemoveFirstCounts(s, x);
    assert y in multiset(RemoveFirst(s, x));
  }

  lemma RemoveFirstMembers<K>(s: seq<K>, x: K)
    ensures Members(RemoveFirst(s, x)) <= Members(s)
  {
    forall y | y in RemoveFirst(s, x) ensures y in s {
      RemoveFirstKeeps(s, x, y);
    }
  }

  /** One iteration of the loop as written, at an index inside the list. */
  lemma SweepStep<K>(lib: Library, dt: real, s: seq<K>, w: map<K, TweenData>, i: int, reenter: Reentry, next: seq<K>)
    requires dt >= 0.0 && InRange(reenter) && WorldOk(s, w) && 0 <= i < |s|
    requires var s1 := Rearranged(s, reenter(|s|, i));
      next == if !Active(Tick(lib, w[s[i]], dt)) && i < |s1| && s1[i] == s[i] then RemoveAt(s1, i) else s1
    ensures Members(next) <= Members(s)
    ensures WorldOk(next, w[s[i] := Tick(lib, w[s[i]], dt)])
    ensures Sweep(lib, dt, s, w, i, reenter) == Sweep(lib, dt, next, w[s[i] := Tick(lib, w[s[i]], dt)], i - 1, reenter)
  {
    var s1 := Rearranged(s, reenter(|s|, i));
    if next != s1 {
      RemoveAtFacts(s1, i);
    }
    WorldOkAfter(s, next, w, s[i], Tick(lib, w[s[i]], dt));
  }

  /** One iteration of the corrected loop. */
  lemma SnapshotStep<K>(lib: Library, dt: real, snap: seq<K>, live: seq<K>, w: map<K, TweenData>, i: int, reenter: Reentry, next: seq<K>)
    requires dt >= 0.0 && InRange(reenter) && WorldOk(snap, w) && WorldOk(live, w) && 0 <= i < |snap| && snap[i] in live
    requires var s1 := Rearranged(live, reenter(|live|, i));
      next == if Active(Tick(lib, w[snap[i]], dt)) then s1 else RemoveFirst(s1, snap[i])
    ensures Members(next) <= Members(live)
    ensures WorldOk(snap, w[snap[i] := Tick(lib, w[snap[i]], dt)])
    ensures WorldOk(next, w[snap[i] := Tick(lib, w[snap[i]], dt)])
    ensures SnapshotSweep(lib, dt, snap, live, w, i, reenter)
      == SnapshotSweep(lib, dt, snap, next, w[snap[i] := Tick(lib, w[snap[i]], dt)], i - 1, reenter)
  {
    var s1 := Rearranged(live, reenter(|live|, i));
    var d := Tick(lib, w[snap[i]], dt);
    RemoveFirstMembers(s1, snap[i]);
    WorldOkAfter(snap, snap, w, snap[i], d);
    WorldOkAfter(live, next, w, snap[i], d);
  }

  /** The loop as evidently intended: walk a copy of the list taken when the
      frame starts, from its end down to index 0; skip a tween that a
      callback has unregistered in the meantime, otherwise tick it, let its
      callbacks act on the live list and, if it stopped playing, unregister
      it by identity. */
  function SnapshotSweep<K(==)>(lib: Library, dt: real, snap: seq<K>, live: seq<K>, w: map<K, TweenData>, i: int, reenter: Reentry): (r: FrameResult<K>)
    requires dt >= 0.0 && InRange(reenter) && WorldOk(snap, w) && WorldOk(live, w) && -1 <= i < |snap|
    ensures r.outcome == Ok
    ensures r.world.Keys == w.Keys && WorldOk(r.tweens, r.world)
    ensures Members(r.tweens) <= Members(live)
    decreases i
  {
    if i < 0 then FrameResult(Ok, live, w)
    else
      var t := snap[i];
      if t !in live then SnapshotSweep(lib, dt, snap, live, w, i - 1, reenter)
      else
        var d := Tick(lib, w[t], dt);
        var live1 := Rearranged(live, reenter(|live|, i));
        var live2 := if Active(d) then live1 else RemoveFirst(live1, t);
        RemoveFirstMembers(live1, t);
        WorldOkAfter(snap, snap, w, t, d);
        WorldOkAfter(live, live2, w, t, d);
        SnapshotSweep(lib, dt, snap, live2, w[t := d], i - 1, reenter)
  }

  /** Each tween of `after` is as in `before`, or is a tween of `xs` ticked
      once. */
  ghost predicate AtMostOnce<K>(lib: Library, dt: real, before: map<K, TweenData>, after: map<K, TweenData>, xs: seq<K>)
    requires dt >= 0.0 && forall x :: x in before ==> WellFormed(before[x])
  {
    forall k :: k in before ==>
      k in after && (after[k] == before[k] || (k in xs && after[k] == Tick(lib, before[k], dt)))
  }

  /** Each tween of `xs` still listed in `kept` was ticked once. */
  ghost predicate SurvivorsTicked<K>(lib: Library, dt: real, before: map<K, TweenData>, after: map<K, TweenData>, kept: seq<K>, xs: seq<K>)
    requires dt >= 0.0 && forall x :: x in before ==> WellFormed(before[x])
  {
    forall k :: k in kept && k in xs ==>
      k in before && k in after && after[k] == Tick(lib, before[k], dt)
  }

  lemma NotBefore<K>(s: seq<K>, i: int)
    requires Distinct(s) && 0 <= i < |s|
    ensures s[i] !in s[..i]
  {
    forall j | 0 <= j < i ensures s[..i][j] != s[i] {
      assert s[..i][j] == s[j];
    }
  }

  /** Whatever the callbacks do to the list, the corrected pass ticks each
      tween of the snapshot at most once and leaves all other tweens alone,
      and every tween that is still registered at the end was ticked. */
  lemma {:induction false} SnapshotTicksOnce<K>(lib: Library, dt: real, snap: seq<K>, live: seq<K>, w: map<K, TweenData>, i: int, reenter: Reentry)
    requires dt >= 0.0 && InRange(reenter) && WorldOk(snap, w) && WorldOk(live, w) && -1 <= i < |snap|
    requires Distinct(snap)
    ensures var r := SnapshotSweep(lib, dt, snap, live, w, i, reenter);
      AtMostOnce(lib, dt, w, r.world, snap[..i + 1]) && SurvivorsTicked(lib, dt, w, r.world, r.tweens, snap[..i + 1])
    decreases i + 1
  {
    var r := SnapshotSweep(lib, dt, snap, live, w, i, reenter);
    if i < 0 {
      assert snap[..0] == [];
    } else {
      var t := snap[i];
      SplitAt(snap, i);
      NotBefore(snap, i);
      if t !in live {
        SnapshotTicksOnce(lib, dt, snap, live, w, i - 1, reenter);
        assert r == SnapshotSweep(lib, dt, snap, live, w, i - 1, reenter);
        forall k | k in r.tweens && k in snap[..i + 1]
          ensures k in w && k in r.world && r.world[k] == Tick(lib, w[k], dt)
        {
          assert k in Members(r.tweens);
          assert k in snap[..i];
        }
      } else {
        var d := Tick(lib, w[t], dt);
        var live1 := Rearranged(live, reenter(|live|, i));
        var live2 := if Active(d) then live1 else RemoveFirst(live1, t);
        var w' := w[t := d];
        RemoveFirstMembers(live1, t);
        WorldOkAfter(snap, snap, w, t, d);
        WorldOkAfter(live, live2, w, t, d);
        SnapshotTicksOnce(lib, dt, snap, live2, w', i - 1, reenter);
        assert r == SnapshotSweep(lib, dt, snap, live2, w', i - 1, reenter);
        assert r.world[t] == d;
        forall k | k in w
          ensures k in r.world && (r.world[k] == w[k] || (k in snap[..i + 1] && r.world[k] == Tick(lib, w[k], dt)))
        {
          if k != t {
            assert w'[k] == w[k];
          }
        }
        forall k | k in r.tweens && k in snap[..i + 1]
          ensures k in w && k in r.world && r.world[k] == Tick(lib, w[k], dt)
        {
          if k != t {
            assert k in snap[..i];
            assert w'[k] == w[k];
          }
        }
      }
    }
  }

  /** One inert step of the corrected pass, when the tween at `i` of the
      snapshot is still at `i` of the live list. */
  lemma SnapshotInertStep<K>(lib: Library, dt: real, snap: seq<K>, live: seq<K>, w: map<K, TweenData>, i: int, reenter: Reentry)
    requires dt >= 0.0 && InRange(reenter) && Inert(reenter) && WorldOk(snap, w) && WorldOk(live, w)
    requires 0 <= i < |snap| && i < |live| && Distinct(live) && live[i] == snap[i]
    ensures var d := Tick(lib, w[snap[i]], dt);
      var live2 := if !Active(d) then RemoveAt(live, i) else live;
      && WorldOk(snap, w[snap[i] := d]) && WorldOk(live2, w[snap[i] := d])
      && SnapshotSweep(lib, dt, snap, live, w, i, reenter) == SnapshotSweep(lib, dt, snap, live2, w[snap[i] := d], i - 1, reenter)
  {
    var t := snap[i];
    var d := Tick(lib, w[t], dt);
    assert t in live;
    assert Rearranged(live, reenter(|live|, i)) == live;
    var live2 := if !Active(d) then RemoveAt(live, i) else live;
    if !Active(d) {
      var k := RemoveFirstSplits(live, t);
      assert live[k] == live[i];
    }
    RemoveFirstMembers(live, t);
    WorldOkAfter(snap, snap, w, t, d);
    WorldOkAfter(live, live2, w, t, d);
  }

  /** When the callbacks leave the list alone and nothing is listed twice,
      the corrected pass does exactly what the loop as written does. */
  lemma {:induction false} SnapshotAgreesWhenInert<K>(lib: Library, dt: real, snap: seq<K>, live: seq<K>, w: map<K, TweenData>, i: int, reenter: Reentry)
    requires dt >= 0.0 && InRange(reenter) && Inert(reenter) && WorldOk(snap, w) && WorldOk(live, w)
    requires -1 <= i < |snap| && i < |live| && Distinct(live) && snap[..i + 1] == live[..i + 1]
    ensures SnapshotSweep(lib, dt, snap, live, w, i, reenter) == Sweep(lib, dt, live, w, i, reenter)
    decreases i + 1
  {
    if i >= 0 {
      var t := snap[i];
      assert live[i] == live[..i + 1][i] == t;
      var d := Tick(lib, w[t], dt);
      var live2 := if !Active(d) then RemoveAt(live, i) else live;
      SweepInertStep(lib, dt, live, w, i, reenter);
      SnapshotInertStep(lib, dt, snap, live, w, i, reenter);
      SplitAt(snap, i);
      SplitAt(live, i);
      assert snap[..i] == live2[..i];
      SnapshotAgreesWhenInert(lib, dt, snap, live2, w[t := d], i - 1, reenter);
    }
  }

  /** A whole corrected pass. */
  lemma WholeSnapshotSweep<K>(lib: Library, dt: real, s: seq<K>, w: map<K, TweenData>, reenter: Reentry)
    requires dt >= 0.0 && InRange(reenter) && WorldOk(s, w) && Distinct(s)
    ensures var r := SnapshotSweep(lib, dt, s, s, w, |s| - 1, reenter);
      && AtMostOnce(lib, dt, w, r.world, s)
      && SurvivorsTicked(lib, dt, w, r.world, r.tweens, s)
      && (Inert(reenter) ==> r == Sweep(lib, dt, s, w, |s| - 1, reenter))
  {
    SnapshotTicksOnce(lib, dt, s, s, w, |s| - 1, reenter);
    assert s[..|s|] == s;
    if Inert(reenter) {
      SnapshotAgreesWhenInert(lib, dt, s, s, w, |s| - 1, reenter);
    }
  }
}
