/** Properties of a tween over a whole sequence of calls. */
module Lifecycle {
  import opened Easing
  import opened Values
  import opened TweenSpec

  /** One call a client or the registry makes on a tween. */
  datatype Command = CallPlay | CallPause | CallStop | CallTick(dt: real)

  predicate Admissible(cmds: seq<Command>)
  {
    forall k :: 0 <= k < |cmds| && cmds[k].CallTick? ==> cmds[k].dt >= 0.0
  }

  function Apply(lib: Library, t: TweenData, c: Command): (r: TweenData)
    requires WellFormed(t) && (c.CallTick? ==> c.dt >= 0.0)
    ensures WellFormed(r)
  {
    match c
    case CallPlay => Play(t)
    case CallPause => Pause(t)
    case CallStop => Stop(t)
    case CallTick(dt) => Tick(lib, t, dt)
  }

  function Run(lib: Library, t: TweenData, cmds: seq<Command>): (r: TweenData)
    requires WellFormed(t) && Admissible(cmds)
    ensures WellFormed(r)
    decreases |cmds|
  {
    if cmds == [] then t else Run(lib, Apply(lib, t, cmds[0]), cmds[1..])
  }

  /** Every call keeps the number of completions plus the number still
      pending (0 or 1) the same: onComplete can be invoked only by consuming
      the set callback. */
  lemma {:induction false} RunConservesCompletions(lib: Library, t: TweenData, cmds: seq<Command>)
    requires WellFormed(t) && Admissible(cmds)
    ensures Completions(Run(lib, t, cmds).callbacks) + Armed(Run(lib, t, cmds))
         == Completions(t.callbacks) + Armed(t)
    decreases |cmds|
  {
    if cmds != [] {
      var t' := Apply(lib, t, cmds[0]);
      assert Completions(t'.callbacks) + Armed(t') == Completions(t.callbacks) + Armed(t);
      RunConservesCompletions(lib, t', cmds[1..]);
    }
  }

  /** onComplete fires at most once over the lifetime of a tween, whatever
      Play, Pause, Stop and ticks it receives. */
  lemma CompletesAtMostOnce(lib: Library, start: Value, end: Value, easing: EasingType,
                            duration: real, onComplete: bool, cmds: seq<Command>)
    requires SameShape(start, end) && Admissible(cmds)
    ensures Completions(Run(lib, Fresh(start, end, easing, duration, onComplete), cmds).callbacks) <= 1
  {
    var t := Fresh(start, end, easing, duration, onComplete);
    assert Completions(t.callbacks) == 0;
    RunConservesCompletions(lib, t, cmds);
  }

  function Sum(dts: seq<real>): real
  {
    if dts == [] then 0.0 else dts[0] + Sum(dts[1..])
  }

  function Ticks(dts: seq<real>): (cmds: seq<Command>)
    ensures |cmds| == |dts| && ((forall k :: 0 <= k < |dts| ==> dts[k] >= 0.0) ==> Admissible(cmds))
    ensures forall k :: 0 <= k < |dts| ==> cmds[k] == CallTick(dts[k])
  {
    seq(|dts|, k requires 0 <= k < |dts| => CallTick(dts[k]))
  }

  /** `after` is `before` followed by n - 1 onPlaying notifications and one
      onComplete. */
  ghost predicate PlaysThenCompletes(before: seq<Callback>, after: seq<Callback>, n: nat)
  {
    && n > 0 && |after| == |before| + n && after[..|before|] == before
    && after[|after| - 1] == OnComplete
    && forall k :: |before| <= k < |after| - 1 ==> after[k].OnPlaying?
  }

  /** A playing tween ticked with positive steps that add up exactly to the
      time it has left is Stopped at `duration` by the last step, notifies
      onPlaying once for each earlier step and completes exactly once. */
  lemma {:induction false} TicksToDurationCompleteOnce(lib: Library, t: TweenData, dts: seq<real>)
    requires WellFormed(t) && Active(t) && t.onComplete
    requires |dts| > 0 && forall k :: 0 <= k < |dts| ==> dts[k] > 0.0
    requires t.currentTime + Sum(dts) == t.duration
    ensures var r := Run(lib, t, Ticks(dts));
      && r.state == Stopped && r.currentTime == t.duration && !r.onComplete
      && Completions(r.callbacks) == Completions(t.callbacks) + 1
      && PlaysThenCompletes(t.callbacks, r.callbacks, |dts|)
    decreases |dts|
  {
    RunConservesCompletions(lib, t, Ticks(dts));
    if |dts| == 1 {
      LastTickCompletes(lib, t, dts);
      var r := Run(lib, t, Ticks(dts));
      assert r.callbacks[..|t.callbacks|] == t.callbacks;
    } else {
      var t' := Tick(lib, t, dts[0]);
      RunTicksHead(lib, t, dts);
      SumPositive(dts[1..]);
      TickKeepsPlaying(lib, t, dts[0]);
      TicksToDurationCompleteOnce(lib, t', dts[1..]);
      CallbacksExtend(t.callbacks, t'.callbacks, Run(lib, t', Ticks(dts[1..])).callbacks, |dts| - 1);
    }
  }

  /** Steps that may be zero, as Time.deltaTime is on every frame while the
      game is paused, that add up exactly to the time a playing tween has
      left: it still ends Stopped at `duration` with onComplete fired
      exactly once. That the zero-length ticks after the completing one
      change nothing is ZeroTicksKeepStopped. */
  lemma {:induction false} NonnegTicksCompleteOnce(lib: Library, t: TweenData, dts: seq<real>)
    requires WellFormed(t) && Active(t) && t.onComplete
    requires |dts| > 0 && forall k :: 0 <= k < |dts| ==> dts[k] >= 0.0
    requires t.currentTime + Sum(dts) == t.duration
    ensures var r := Run(lib, t, Ticks(dts));
      && r.state == Stopped && r.currentTime == t.duration && !r.onComplete
      && Completions(r.callbacks) == Completions(t.callbacks) + 1
    decreases |dts|
  {
    RunConservesCompletions(lib, t, Ticks(dts));
    if |dts| == 1 {
      LastTickCompletes(lib, t, dts);
    } else {
      var t' := Tick(lib, t, dts[0]);
      RunTicksHead(lib, t, dts);
      SumNonnegative(dts[1..]);
      if t.currentTime + dts[0] < t.duration {
        TickKeepsPlaying(lib, t, dts[0]);
        NonnegTicksCompleteOnce(lib, t', dts[1..]);
      } else {
        TickReachingDuration(lib, t, dts[0]);
        ZeroTicksKeepStopped(lib, t', dts[1..]);
      }
    }
  }

  /** Ticks adding up to zero leave a tween Stopped at `duration` as it is. */
  lemma {:induction false} ZeroTicksKeepStopped(lib: Library, t: TweenData, dts: seq<real>)
    requires WellFormed(t) && t.state == Stopped && t.currentTime == t.duration
    requires (forall k :: 0 <= k < |dts| ==> dts[k] >= 0.0) && Sum(dts) == 0.0
    ensures Run(lib, t, Ticks(dts)) == t
    decreases |dts|
  {
    if |dts| > 0 {
      RunTicksHead(lib, t, dts);
      SumNonnegative(dts[1..]);
      assert Tick(lib, t, dts[0]) == t;
      ZeroTicksKeepStopped(lib, t, dts[1..]);
    }
  }

  lemma {:induction false} SumNonnegative(dts: seq<real>)
    requires forall k :: 0 <= k < |dts| ==> dts[k] >= 0.0
    ensures Sum(dts) >= 0.0
    decreases |dts|
  {
    if dts != [] {
      SumNonnegative(dts[1..]);
    }
  }

  /** TicksToDurationCompleteOnce: a tick below `duration` of a playing tween
      keeps it playing and appends one onPlaying. */
  lemma TickKeepsPlaying(lib: Library, t: TweenData, dt: real)
    requires WellFormed(t) && Active(t) && dt >= 0.0 && t.currentTime + dt < t.duration
    ensures var r := Tick(lib, t, dt);
      && WellFormed(r) && Active(r) && r.onComplete == t.onComplete && r.duration == t.duration
      && r.currentTime == t.currentTime + dt
      && |r.callbacks| == |t.callbacks| + 1 && r.callbacks[..|t.callbacks|] == t.callbacks
      && r.callbacks[|t.callbacks|].OnPlaying?
  {
    TickBeforeDuration(lib, t, dt);
    TickKeeps(lib, t, dt);
    var r := Tick(lib, t, dt);
    assert r.callbacks[..|t.callbacks|] == t.callbacks;
  }

  /** TicksToDurationCompleteOnce: one onPlaying in front of a run that ends
      in onComplete after onPlaying notifications only. */
  lemma CallbacksExtend(before: seq<Callback>, mid: seq<Callback>, after: seq<Callback>, n: nat)
    requires |mid| == |before| + 1 && mid[..|before|] == before && mid[|before|].OnPlaying?
    requires PlaysThenCompletes(mid, after, n)
    ensures PlaysThenCompletes(before, after, n + 1)
  {
    PrefixOfPrefix(after, mid, before);
    assert after[|before|] == mid[|before|];
  }

  /** The last step of TicksToDurationCompleteOnce. */
  lemma LastTickCompletes(lib: Library, t: TweenData, dts: seq<real>)
    requires WellFormed(t) && Active(t) && t.onComplete
    requires |dts| == 1 && dts[0] >= 0.0 && t.currentTime + dts[0] >= t.duration
    ensures var r := Run(lib, t, Ticks(dts));
      r.state == Stopped && r.currentTime == t.duration && !r.onComplete
      && r.callbacks == t.callbacks + [OnComplete]
  {
    RunTicksHead(lib, t, dts);
    TickReachingDuration(lib, t, dts[0]);
    assert Ticks(dts[1..]) == [];
  }

  lemma PrefixOfPrefix<X>(s: seq<X>, p: seq<X>, q: seq<X>)
    requires |p| <= |s| && s[..|p|] == p && |q| <= |p| && p[..|q|] == q
    ensures s[..|q|] == q
  {
    assert s[..|q|] == s[..|p|][..|q|];
  }

  /** Running a list of ticks is running its first tick, then the others. */
  lemma RunTicksHead(lib: Library, t: TweenData, dts: seq<real>)
    requires WellFormed(t) && |dts| > 0 && forall k :: 0 <= k < |dts| ==> dts[k] >= 0.0
    ensures Run(lib, t, Ticks(dts)) == Run(lib, Tick(lib, t, dts[0]), Ticks(dts[1..]))
  {
    assert Ticks(dts)[1..] == Ticks(dts[1..]);
  }

  lemma {:induction false} SumPositive(dts: seq<real>)
    requires |dts| > 0 && forall k :: 0 <= k < |dts| ==> dts[k] > 0.0
    ensures Sum(dts) > 0.0
    decreases |dts|
  {
    if |dts| > 1 {
      SumPositive(dts[1..]);
    }
  }

  /** A single step reaching `duration` completes a playing tween at once;
      onPlaying is not notified on the completing tick. */
  lemma OvershootCompletesWithoutPlaying(lib: Library, t: TweenData, dt: real)
    requires WellFormed(t) && Active(t) && dt >= 0.0 && t.currentTime + dt >= t.duration
    ensures var r := Tick(lib, t, dt);
      r.state == Stopped && r.value == t.value
      && r.callbacks == t.callbacks + (if t.onComplete then [OnComplete] else [])
  {
  }

  /** A paused tween still accrues time and notifies onPlaying on a tick: the
      typed OnTick never looks at the state. It stays Paused and so reports
      itself inactive. */
  lemma PausedTweenStillAdvances(lib: Library, t: TweenData, dt: real)
    requires WellFormed(t) && t.state == Paused && dt >= 0.0 && t.currentTime + dt < t.duration
    ensures var r := Tick(lib, t, dt);
      r.state == Paused && !Active(r) && r.currentTime == t.currentTime + dt
      && r.callbacks == t.callbacks + [OnPlaying(r.value)]
  {
  }

  /** A tween that was never played keeps its overshot time and gets no
      onComplete when it crosses `duration`: Stop is a no-op on it. */
  lemma UnplayedTweenNeverCompletes(lib: Library, t: TweenData, dt: real)
    requires WellFormed(t) && t.state == Stopped && dt >= 0.0 && t.currentTime + dt >= t.duration
    ensures Tick(lib, t, dt) == t.(currentTime := t.currentTime + dt)
  {
  }

  /** Pausing a playing tween and playing it again restores it exactly, so it
      resumes from the same currentTime. */
  lemma PauseThenPlayRestores(t: TweenData)
    requires Active(t)
    ensures Play(Pause(t)) == t
  {
  }

  /** Stop is idempotent: a second Stop changes nothing and fires nothing. */
  lemma StopIsIdempotent(t: TweenData)
    ensures Stop(Stop(t)) == Stop(t)
  {
  }

  /** A one-second tween, played and then ticked four times by 0.25: onPlaying
      sees the curve at progress 0.25, 0.5 and 0.75, and the fourth tick
      completes it. */
  lemma QuarterSteps(lib: Library, from: real, to: real, easing: EasingType)
    ensures var t := Fresh(FloatValue(from), FloatValue(to), easing, 1.0, true);
      var r := Run(lib, t, [CallPlay, CallTick(0.25), CallTick(0.25), CallTick(0.25), CallTick(0.25)]);
      && r.state == Stopped && r.currentTime == 1.0
      && r.callbacks == [OnPlaying(FloatValue(lib(easing, from, to, 0.25))),
                         OnPlaying(FloatValue(lib(easing, from, to, 0.5))),
                         OnPlaying(FloatValue(lib(easing, from, to, 0.75))),
                         OnComplete]
  {
    var t0 := Fresh(FloatValue(from), FloatValue(to), easing, 1.0, true);
    var t1 := Play(t0);
    var t2, t3, t4 := FirstQuarters(lib, t1, from, to, easing);
    var t5 := LastQuarter(lib, t4);
    QuarterRun(lib, t0, t1, t2, t3, t4, t5);
  }

  /** QuarterSteps: the three ticks that notify onPlaying. */
  lemma FirstQuarters(lib: Library, t1: TweenData, from: real, to: real, easing: EasingType)
    returns (t2: TweenData, t3: TweenData, t4: TweenData)
    requires t1 == Play(Fresh(FloatValue(from), FloatValue(to), easing, 1.0, true))
    ensures t2 == Tick(lib, t1, 0.25) && t3 == Tick(lib, t2, 0.25) && t4 == Tick(lib, t3, 0.25)
    ensures WellFormed(t4) && Active(t4) && t4.onComplete && t4.duration == 1.0 && t4.currentTime == 0.75
    ensures t4.callbacks == [OnPlaying(FloatValue(lib(easing, from, to, 0.25))),
                             OnPlaying(FloatValue(lib(easing, from, to, 0.5))),
                             OnPlaying(FloatValue(lib(easing, from, to, 0.75)))]
  {
    var p1 := OnPlaying(FloatValue(lib(easing, from, to, 0.25)));
    var p2 := OnPlaying(FloatValue(lib(easing, from, to, 0.5)));
    var p3 := OnPlaying(FloatValue(lib(easing, from, to, 0.75)));
    assert [p1] == [] + [p1] && [p1, p2] == [p1] + [p2] && [p1, p2, p3] == [p1, p2] + [p3];
    t2 := QuarterStep(lib, t1, 0.0, [], [p1]);
    t3 := QuarterStep(lib, t2, 0.25, [p1], [p1, p2]);
    t4 := QuarterStep(lib, t3, 0.5, [p1, p2], [p1, p2, p3]);
  }

  /** QuarterSteps: a run of the five calls is the chain of the five steps. */
  lemma QuarterRun(lib: Library, t0: TweenData, t1: TweenData, t2: TweenData, t3: TweenData, t4: TweenData, t5: TweenData)
    requires WellFormed(t0) && t1 == Play(t0)
    requires t2 == Tick(lib, t1, 0.25) && t3 == Tick(lib, t2, 0.25)
    requires t4 == Tick(lib, t3, 0.25) && t5 == Tick(lib, t4, 0.25)
    ensures Run(lib, t0, [CallPlay, CallTick(0.25), CallTick(0.25), CallTick(0.25), CallTick(0.25)]) == t5
  {
    var q := CallTick(0.25);
    var c1 := [q] + [];
    var c2 := [q] + c1;
    var c3 := [q] + c2;
    var c4 := [q] + c3;
    RunStep(lib, t4, q, [], t5);
    RunStep(lib, t3, q, c1, t5);
    RunStep(lib, t2, q, c2, t5);
    RunStep(lib, t1, q, c3, t5);
    RunStep(lib, t0, CallPlay, c4, t5);
    FiveCommands(CallPlay, q);
  }

  lemma FiveCommands(p: Command, q: Command)
    ensures [p] + ([q] + ([q] + ([q] + ([q] + [])))) == [p, q, q, q, q]
  {
    assert [q] + [] == [q];
    assert [q] + [q] == [q, q];
    assert [q] + [q, q] == [q, q, q];
    assert [q] + [q, q, q] == [q, q, q, q];
  }

  lemma RunStep(lib: Library, t: TweenData, c: Command, cmds: seq<Command>, r: TweenData)
    requires WellFormed(t) && (c.CallTick? ==> c.dt >= 0.0) && Admissible(cmds)
    requires Run(lib, Apply(lib, t, c), cmds) == r
    ensures Admissible([c] + cmds) && Run(lib, t, [c] + cmds) == r
  {
    RunCons(lib, t, c, cmds);
  }

  lemma RunCons(lib: Library, t: TweenData, c: Command, cmds: seq<Command>)
    requires WellFormed(t) && (c.CallTick? ==> c.dt >= 0.0) && Admissible(cmds)
    ensures Admissible([c] + cmds)
    ensures Run(lib, t, [c] + cmds) == Run(lib, Apply(lib, t, c), cmds)
  {
    assert ([c] + cmds)[1..] == cmds;
  }

  /** QuarterSteps: one of the first three steps. */
  lemma QuarterStep(lib: Library, t: TweenData, time: real, before: seq<Callback>, after: seq<Callback>)
    returns (r: TweenData)
    requires WellFormed(t) && Active(t) && t.onComplete && t.duration == 1.0 && t.currentTime == time
    requires t.start.FloatValue? && t.end.FloatValue? && t.callbacks == before
    requires 0.0 <= time <= 0.5
    requires after == before + [OnPlaying(FloatValue(lib(t.easing, t.start.f, t.end.f, time + 0.25)))]
    ensures r == Tick(lib, t, 0.25)
    ensures WellFormed(r) && Active(r) && r.onComplete && r.duration == 1.0 && r.currentTime == time + 0.25
    ensures r.start == t.start && r.end == t.end && r.easing == t.easing && r.callbacks == after
  {
    r := Tick(lib, t, 0.25);
    TickBeforeDuration(lib, t, 0.25);
    assert (time + 0.25) / 1.0 == time + 0.25;
  }

  /** QuarterSteps: the completing step. */
  lemma LastQuarter(lib: Library, t: TweenData) returns (r: TweenData)
    requires WellFormed(t) && Active(t) && t.onComplete && t.duration == 1.0 && t.currentTime == 0.75
    ensures r == Tick(lib, t, 0.25)
    ensures r.state == Stopped && r.currentTime == 1.0 && r.callbacks == t.callbacks + [OnComplete]
  {
    r := Tick(lib, t, 0.25);
    TickReachingDuration(lib, t, 0.25);
  }
}
