/** Two inputs on which the Update loop as written misbehaves, because a
    callback run by OnTick may unregister tweens that the loop has not
    reached yet, and the corrected pass on the same inputs. The tweens are
    named 1, 2 and 3 and listed in that order. */
module Findings {
  import opened Easing
  import opened Values
  import opened TweenSpec
  import opened RegistrySpec

  function Three(a: TweenData, b: TweenData, c: TweenData): map<int, TweenData>
  {
    map[1 := a, 2 := b, 3 := c]
  }

  /** Callbacks that act only while the tween at index `i0` of a list of
      length `n0` is ticked, and then keep the tweens at positions `ps`. */
  function ActOnce(n0: nat, i0: int, ps: seq<int>): (r: Reentry)
    requires forall j :: 0 <= j < |ps| ==> 0 <= ps[j] < n0
    ensures InRange(r)
    ensures r(n0, i0) == ps && forall n: nat, i: int :: n != n0 ==> r(n, i) == Positions(n)
  {
    var r := (n: nat, i: int) => if n == n0 && i == i0 then ps else Positions(n);
    assert InRange(r) by {
      forall n: nat, i: int, j | 0 <= j < |r(n, i)| ensures 0 <= r(n, i)[j] < n {
        if !(n == n0 && i == i0) {
          assert r(n, i) == Positions(n);
        }
      }
    }
    r
  }

  /** While the third tween is ticked, a callback unregisters the first two. */
  function DropFirstTwo(): Reentry
  {
    ActOnce(3, 2, [2])
  }

  /** While the third tween is ticked, a callback unregisters the first. */
  function DropFirst(): Reentry
  {
    ActOnce(3, 2, [1, 2])
  }

  /** The list shrinks to one tween while the index is still 2, and the next
      read, at index 1, is past its end. */
  lemma OverrunAfterTwoRemovals(lib: Library, dt: real, a: TweenData, b: TweenData, c: TweenData)
    requires dt >= 0.0 && WellFormed(a) && WellFormed(b) && WellFormed(c)
    ensures Sweep(lib, dt, [1, 2, 3], Three(a, b, c), 2, DropFirstTwo()).outcome == ArgumentOutOfRange(1)
    ensures SnapshotSweep(lib, dt, [1, 2, 3], [1, 2, 3], Three(a, b, c), 2, DropFirstTwo()).outcome == Ok
  {
    var w := Three(a, b, c);
    var d := Tick(lib, c, dt);
    var reenter := DropFirstTwo();
    assert reenter(3, 2) == [2];
    assert Rearranged([1, 2, 3], [2]) == [3];
    assert Sweep(lib, dt, [1, 2, 3], w, 2, reenter) == Sweep(lib, dt, [3], w[3 := d], 1, reenter);
  }

  /** The third tween moves down to index 1 and is ticked a second time. */
  lemma DoubleTickAfterOneRemoval(lib: Library, dt: real, a: TweenData, b: TweenData, c: TweenData)
    requires dt >= 0.0 && WellFormed(a) && WellFormed(b) && WellFormed(c)
    ensures Sweep(lib, dt, [1, 2, 3], Three(a, b, c), 2, DropFirst()).world[3] == Tick(lib, Tick(lib, c, dt), dt)
  {
    var w1 := Three(a, b, Tick(lib, c, dt));
    var w2 := Three(a, b, Tick(lib, Tick(lib, c, dt), dt));
    var s2 := FirstSteps(lib, dt, a, b, c);
    LastStep(lib, dt, s2, w2);
  }

  /** The first two iterations: the third tween is ticked at index 2, then,
      after it moved down, again at index 1. */
  lemma FirstSteps(lib: Library, dt: real, a: TweenData, b: TweenData, c: TweenData) returns (s2: seq<int>)
    requires dt >= 0.0 && WellFormed(a) && WellFormed(b) && WellFormed(c)
    ensures var w2 := Three(a, b, Tick(lib, Tick(lib, c, dt), dt));
      && 2 in s2 && s2[0] == 2 && |s2| <= 2 && WorldOk(s2, w2)
      && Sweep(lib, dt, [1, 2, 3], Three(a, b, c), 2, DropFirst()) == Sweep(lib, dt, s2, w2, 0, DropFirst())
  {
    var d := Tick(lib, c, dt);
    FirstStep(lib, dt, a, b, c);
    s2 := SecondStep(lib, dt, a, b, d);
  }

  lemma FirstStep(lib: Library, dt: real, a: TweenData, b: TweenData, c: TweenData)
    requires dt >= 0.0 && WellFormed(a) && WellFormed(b) && WellFormed(c)
    ensures WellFormed(Tick(lib, c, dt))
    ensures Sweep(lib, dt, [1, 2, 3], Three(a, b, c), 2, DropFirst())
      == Sweep(lib, dt, [2, 3], Three(a, b, Tick(lib, c, dt)), 1, DropFirst())
  {
    assert Rearranged([1, 2, 3], [1, 2]) == [2, 3];
    assert Three(a, b, c)[3 := Tick(lib, c, dt)] == Three(a, b, Tick(lib, c, dt));
  }

  lemma SecondStep(lib: Library, dt: real, a: TweenData, b: TweenData, d: TweenData) returns (s2: seq<int>)
    requires dt >= 0.0 && WellFormed(a) && WellFormed(b) && WellFormed(d)
    ensures var w2 := Three(a, b, Tick(lib, d, dt));
      && 2 in s2 && s2[0] == 2 && |s2| <= 2 && WorldOk(s2, w2)
      && Sweep(lib, dt, [2, 3], Three(a, b, d), 1, DropFirst()) == Sweep(lib, dt, s2, w2, 0, DropFirst())
  {
    var d1 := Tick(lib, d, dt);
    assert Rearranged([2, 3], Positions(2)) == [2, 3];
    s2 := if !Active(d1) then [2] else [2, 3];
    assert RemoveAt([2, 3], 1) == [2];
    assert Three(a, b, d)[3 := d1] == Three(a, b, d1);
  }

  /** The last iteration ticks the second tween and leaves the third alone. */
  lemma LastStep(lib: Library, dt: real, s2: seq<int>, w2: map<int, TweenData>)
    requires dt >= 0.0 && 2 in w2 && 3 in w2 && WorldOk(s2, w2) && 1 <= |s2| <= 2 && s2[0] == 2
    ensures Sweep(lib, dt, s2, w2, 0, DropFirst()).world[3] == w2[3]
  {
    var reenter := DropFirst();
    var d2 := Tick(lib, w2[2], dt);
    assert reenter(|s2|, 0) == Positions(|s2|);
    assert Rearranged(s2, Positions(|s2|)) == s2;
    var s3 := if !Active(d2) then RemoveAt(s2, 0) else s2;
    assert Sweep(lib, dt, s2, w2, 0, reenter) == Sweep(lib, dt, s3, w2[2 := d2], -1, reenter);
  }

  /** A tween that has just started, running from 0 to 1 over one second. */
  function Started(): (t: TweenData)
    ensures WellFormed(t) && Active(t) && t.currentTime == 0.0 && t.duration == 1.0
  {
    TweenData(FloatValue(0.0), FloatValue(1.0), FloatValue(0.0), Linear, 1.0, 0.0, false, Playing, [])
  }

  /** With three started tweens and a frame of a quarter second, the third
      tween ends the frame half-way through, with two OnPlaying calls; the
      corrected pass ticks it once. */
  lemma DoubleTickAdvancesTwice(lib: Library)
    ensures var t := Started();
      var r := Sweep(lib, 0.25, [1, 2, 3], Three(t, t, t), 2, DropFirst());
      && r.world[3].currentTime == 0.5
      && |r.world[3].callbacks| == 2
      && r.world[3].callbacks[0].OnPlaying? && r.world[3].callbacks[1].OnPlaying?
    ensures var t := Started();
      var r := SnapshotSweep(lib, 0.25, [1, 2, 3], [1, 2, 3], Three(t, t, t), 2, DropFirst());
      3 in r.tweens && r.world[3] == Tick(lib, t, 0.25) && r.world[3].currentTime == 0.25
  {
    var t := Started();
    var w := Three(t, t, t);
    DoubleTickAfterOneRemoval(lib, 0.25, t, t, t);
    var d := Tick(lib, t, 0.25);
    TickBeforeDuration(lib, t, 0.25);
    TickBeforeDuration(lib, d, 0.25);
    SnapshotDropFirst(lib, t);
  }

  /** The corrected pass on the second input, unfolded. */
  lemma SnapshotDropFirst(lib: Library, t: TweenData)
    requires t == Started()
    ensures var r := SnapshotSweep(lib, 0.25, [1, 2, 3], [1, 2, 3], Three(t, t, t), 2, DropFirst());
      3 in r.tweens && r.world[3] == Tick(lib, t, 0.25)
  {
    var d := Tick(lib, t, 0.25);
    TickBeforeDuration(lib, t, 0.25);
    SnapshotFirstStep(lib, t, d);
    var live := SnapshotSecondStep(lib, t, d);
    SnapshotLastStep(lib, live, Three(t, Tick(lib, t, 0.25), d));
  }

  lemma SnapshotFirstStep(lib: Library, t: TweenData, d: TweenData)
    requires t == Started() && d == Tick(lib, t, 0.25) && Active(d)
    ensures SnapshotSweep(lib, 0.25, [1, 2, 3], [1, 2, 3], Three(t, t, t), 2, DropFirst())
      == SnapshotSweep(lib, 0.25, [1, 2, 3], [2, 3], Three(t, t, d), 1, DropFirst())
  {
    assert Rearranged([1, 2, 3], [1, 2]) == [2, 3];
    assert Three(t, t, t)[3 := d] == Three(t, t, d);
  }

  lemma SnapshotSecondStep(lib: Library, t: TweenData, d: TweenData) returns (live: seq<int>)
    requires t == Started() && WellFormed(d)
    ensures live == [2, 3] || live == [3]
    ensures SnapshotSweep(lib, 0.25, [1, 2, 3], [2, 3], Three(t, t, d), 1, DropFirst())
      == SnapshotSweep(lib, 0.25, [1, 2, 3], live, Three(t, Tick(lib, t, 0.25), d), 0, DropFirst())
  {
    assert Rearranged([2, 3], Positions(2)) == [2, 3];
    var d2 := Tick(lib, t, 0.25);
    assert RemoveFirst([2, 3], 2) == [3];
    live := if Active(d2) then [2, 3] else [3];
    assert Three(t, t, d)[2 := d2] == Three(t, d2, d);
  }

  lemma SnapshotLastStep(lib: Library, live: seq<int>, w1: map<int, TweenData>)
    requires live == [2, 3] || live == [3]
    requires WorldOk([1, 2, 3], w1)
    ensures var r := SnapshotSweep(lib, 0.25, [1, 2, 3], live, w1, 0, DropFirst());
      r.tweens == live && r.world == w1
  {
  }
}
