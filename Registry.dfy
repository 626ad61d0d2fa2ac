/** The ETween registry: the list of running tweens, Move, AddTween,
    RemoveTween and the per-frame Update loop. The static list becomes a
    field of one registry object. Update is proved to follow
    `RegistrySpec.Sweep`; `SafeUpdate`, the loop as evidently intended,
    follows `RegistrySpec.SnapshotSweep`. */
module Registry {
  import opened Easing
  import opened Values
  import opened TweenSpec
  import opened RegistrySpec
  import opened Tweens

  /** `w` holds the current fields of every tween of `m`, all well formed. */
  ghost predicate Tracks(m: set<Tween>, w: map<Tween, TweenData>)
    reads m
  {
    w.Keys == m && forall u :: u in m ==> u.Data() == w[u] && WellFormed(w[u])
  }

  /** One iteration of Update's loop on a list whose index `i` is in range:
      tick `list[i]`, let its callbacks reshape the list, and remove index
      `i` if the tween there is the one that stopped playing. */
  method UpdateStep(dt: real, lib: Library, reenter: Reentry, list: seq<Tween>, i: int,
                    ghost m: set<Tween>, ghost world: map<Tween, TweenData>)
    returns (next: seq<Tween>, ghost world': map<Tween, TweenData>)
    requires dt >= 0.0 && InRange(reenter) && 0 <= i < |list|
    requires Members(list) <= m && WorldOk(list, world) && Tracks(m, world)
    modifies list[i]
    ensures Members(next) <= m && WorldOk(next, world') && Tracks(m, world')
    ensures Sweep(lib, dt, list, world, i, reenter) == Sweep(lib, dt, next, world', i - 1, reenter)
  {
    var t := list[i];
    assert t in m && t.Data() == world[t];
    var playing := t.OnTick(dt, lib);
    assert t.Data() == Tick(lib, world[t], dt);
    world' := world[t := Tick(lib, world[t], dt)];
    next := Rearranged(list, reenter(|list|, i));
    if !playing && i < |next| && next[i] == t {
      next := RemoveAt(next, i);
    }
    SweepStep(lib, dt, list, world, i, reenter, next);
  }

  /** One iteration of SafeUpdate's loop: a tween of the snapshot that is
      still registered is ticked, its callbacks reshape the live list, and
      it is removed by identity if it stopped playing; a tween no longer
      registered is skipped. */
  method SnapshotUpdateStep(dt: real, lib: Library, reenter: Reentry, snap: seq<Tween>, list: seq<Tween>, i: int,
                            ghost m: set<Tween>, ghost world: map<Tween, TweenData>)
    returns (next: seq<Tween>, ghost world': map<Tween, TweenData>)
    requires dt >= 0.0 && InRange(reenter) && 0 <= i < |snap|
    requires Members(list) <= m && WorldOk(list, world) && WorldOk(snap, world) && Tracks(m, world)
    modifies snap[i]
    ensures Members(next) <= m && WorldOk(next, world') && WorldOk(snap, world') && Tracks(m, world')
    ensures SnapshotSweep(lib, dt, snap, list, world, i, reenter) == SnapshotSweep(lib, dt, snap, next, world', i - 1, reenter)
  {
    var t := snap[i];
    if t !in list {
      next, world' := list, world;
      return;
    }
    assert t in m && t.Data() == world[t];
    var playing := t.OnTick(dt, lib);
    assert t.Data() == Tick(lib, world[t], dt);
    world' := world[t := Tick(lib, world[t], dt)];
    next := Rearranged(list, reenter(|list|, i));
    if !playing {
      next := RemoveFirst(next, t);
    }
    SnapshotStep(lib, dt, snap, list, world, i, reenter, next);
  }

  /** Update's loop, run on a copy of the list: from the last index down to
      0, each tween is ticked and the list is reshaped by its callbacks. The
      source's loop runs while i >= 0 and throws once i is past the end of
      the list; that throw is the second exit here. */
  method SweepList(dt: real, lib: Library, reenter: Reentry, tweens: seq<Tween>,
                   ghost m: set<Tween>, ghost world0: map<Tween, TweenData>)
    returns (list: seq<Tween>, outcome: Outcome, ghost world: map<Tween, TweenData>)
    requires dt >= 0.0 && InRange(reenter)
    requires Members(tweens) <= m && WorldOk(tweens, world0) && Tracks(m, world0)
    modifies m
    ensures Members(list) <= m && Tracks(m, world)
    ensures FrameResult(outcome, list, world) == Sweep(lib, dt, tweens, world0, |tweens| - 1, reenter)
  {
    ghost var goal := Sweep(lib, dt, tweens, world0, |tweens| - 1, reenter);
    list, world := tweens, world0;
    var i := |list| - 1;
    while i >= 0 && i < |list|
      invariant -1 <= i
      invariant Members(list) <= m && WorldOk(list, world) && Tracks(m, world)
      invariant Sweep(lib, dt, list, world, i, reenter) == goal
      decreases i + 1
    {
      var next;
      next, world := UpdateStep(dt, lib, reenter, list, i, m, world);
      list, i := next, i - 1;
    }
    outcome := if i >= 0 then ArgumentOutOfRange(i) else Ok;
  }

  /** SafeUpdate's loop: walk the snapshot from its end down to index 0 and
      tick each tween still in the live list. */
  method SnapshotSweepList(dt: real, lib: Library, reenter: Reentry, snap: seq<Tween>,
                           ghost m: set<Tween>, ghost world0: map<Tween, TweenData>)
    returns (list: seq<Tween>, ghost world: map<Tween, TweenData>)
    requires dt >= 0.0 && InRange(reenter)
    requires Members(snap) <= m && WorldOk(snap, world0) && Tracks(m, world0)
    modifies m
    ensures Members(list) <= m && Tracks(m, world)
    ensures FrameResult(Ok, list, world) == SnapshotSweep(lib, dt, snap, snap, world0, |snap| - 1, reenter)
  {
    ghost var goal := SnapshotSweep(lib, dt, snap, snap, world0, |snap| - 1, reenter);
    list, world := snap, world0;
    var i := |snap| - 1;
    while i >= 0
      invariant -1 <= i < |snap|
      invariant Members(list) <= m && WorldOk(list, world) && WorldOk(snap, world) && Tracks(m, world)
      invariant SnapshotSweep(lib, dt, snap, list, world, i, reenter) == goal
      decreases i + 1
    {
      list, world := SnapshotUpdateStep(dt, lib, reenter, snap, list, i, m, world);
      i := i - 1;
    }
    assert SnapshotSweep(lib, dt, snap, list, world, i, reenter) == FrameResult(Ok, list, world);
  }

  class ETween {
    var tweens: seq<Tween>

    /** Every registered tween is well formed. */
    ghost predicate Valid()
      reads this, Members(tweens)
    {
      forall t :: t in tweens ==> t.Valid()
    }

    /** The fields of the tweens in `m`. */
    ghost function World(m: set<Tween>): (w: map<Tween, TweenData>)
      reads m
      ensures w.Keys == m
    {
      map t | t in m :: t.Data()
    }

    /** The world of a valid registry's tweens tracks them. */
    lemma TracksWorld()
      requires Valid()
      ensures Tracks(Members(tweens), World(Members(tweens)))
    {
    }

    lemma WorldIs(m: set<Tween>, w: map<Tween, TweenData>)
      requires Tracks(m, w)
      ensures World(m) == w
    {
    }

    constructor ()
      ensures Valid() && tweens == []
    {
      tweens := [];
    }

    /** AddTween: the tween is appended, even if it is already registered. */
    method AddTween(t: Tween)
      requires Valid() && t.Valid()
      modifies this
      ensures Valid() && tweens == old(tweens) + [t]
    {
      tweens := tweens + [t];
    }

    /** RemoveTween: the tween is stopped (running its onComplete if it was
        not Stopped yet), then its first occurrence is unregistered. */
    method RemoveTween(t: Tween)
      requires Valid() && t.Valid()
      modifies this, t
      ensures Valid() && t.Valid()
      ensures t.Data() == TweenSpec.Stop(old(t.Data()))
      ensures tweens == RemoveFirst(old(tweens), t)
    {
      t.Stop();
      ghost var before := tweens;
      tweens := RemoveFirst(tweens, t);
      forall u | u in tweens ensures u.Valid() {
        RemoveFirstKeeps(before, t, u);
      }
    }

    /** Move: a new Vector3 tween from `from` to `to` is registered at the
        end of the list and is Playing; nothing else changes. */
    method Move(from: Values.Vector3, to: Values.Vector3, duration: real, easing: EasingType, onComplete: bool)
      requires Valid()
      modifies this
      ensures Valid()
      ensures |tweens| == |old(tweens)| + 1 && tweens[..|old(tweens)|] == old(tweens)
      ensures fresh(tweens[|old(tweens)|])
      ensures tweens[|old(tweens)|].Data()
        == TweenSpec.Play(Fresh(Vector3Value(from), Vector3Value(to), easing, duration, onComplete))
    {
      var t := new Tween.Vector3(from, to, easing, duration, onComplete);
      AddTween(t);
      t.Play();
      assert tweens[..|old(tweens)|] == old(tweens);
    }

    /** Update, with `dt` for Time.deltaTime and `reenter` for what the
        callbacks do to the list: the new list, the new fields of the tweens
        and how the loop ends are those of `Sweep`. When the callbacks leave
        the list alone and no tween is registered twice, every tween is
        ticked once and the list keeps exactly the tweens still Playing, in
        their order. */
    method Update(dt: real, lib: Library, reenter: Reentry) returns (outcome: Outcome)
      requires Valid() && dt >= 0.0 && InRange(reenter)
      modifies this, Members(tweens)
      ensures Valid()
      ensures FrameResult(outcome, tweens, World(old(Members(tweens))))
        == old(Sweep(lib, dt, tweens, World(Members(tweens)), |tweens| - 1, reenter))
    {
      ghost var m := Members(tweens);
      TracksWorld();
      var list;
      ghost var world;
      list, outcome, world := SweepList(dt, lib, reenter, tweens, m, World(m));
      tweens := list;
      WorldIs(m, world);
    }

    /** The Update loop as evidently intended: walk a copy of the list taken
        when the frame starts, skip tweens unregistered by an earlier
        callback, and unregister a finished tween by identity. It never
        reads past the end of the list; when no tween is registered twice it
        ticks none twice, and it ticks every tween that stays registered. */
    method SafeUpdate(dt: real, lib: Library, reenter: Reentry)
      requires Valid() && dt >= 0.0 && InRange(reenter)
      modifies this, Members(tweens)
      ensures Valid()
      ensures FrameResult(Ok, tweens, World(old(Members(tweens))))
        == old(SnapshotSweep(lib, dt, tweens, tweens, World(Members(tweens)), |tweens| - 1, reenter))
    {
      ghost var m := Members(tweens);
      TracksWorld();
      var list;
      ghost var world;
      list, world := SnapshotSweepList(dt, lib, reenter, tweens, m, World(m));
      tweens := list;
      WorldIs(m, world);
    }
  }
}
