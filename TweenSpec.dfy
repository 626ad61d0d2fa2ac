/** The tween lifecycle as values: one TweenData record per tween and the
    transitions Play, Pause, Stop and the typed per-tick update. The class
    `Tweens.Tween` is proved to follow these functions step by step. */
module TweenSpec {
  import opened Easing
  import opened Values

  /** TweenState. A tween starts Stopped. */
  datatype TweenState = Playing | Paused | Stopped

  /** One invocation of a user callback, with what the callback observes. */
  datatype Callback =
    | OnPlaying(value: Value)   // onPlaying(this), after `value` was set
    | OnComplete                // onComplete(this), then the field is cleared

  /** All fields of a tween. `onComplete` says whether the completion
      callback is still set (the field is non-null); `callbacks` records the
      callback invocations so far, oldest first. */
  datatype TweenData = TweenData(
    start: Value,
    end: Value,
    value: Value,
    easing: EasingType,
    duration: real,
    currentTime: real,
    onComplete: bool,
    state: TweenState,
    callbacks: seq<Callback>)

  /** What every tween satisfies: its three values belong to one typed
      variant, and `currentTime` never fell below both 0 and `duration`
      (it starts at 0, only grows by ticks, and Stop sets it to `duration`). */
  predicate WellFormed(t: TweenData)
  {
    SameShape(t.start, t.end) && SameShape(t.start, t.value)
    && (t.currentTime >= 0.0 || t.currentTime >= t.duration)
  }

  /** The state Stopped of a freshly built tween of the variant of `start`. */
  function Fresh(start: Value, end: Value, easing: EasingType, duration: real, onComplete: bool): (t: TweenData)
    requires SameShape(start, end)
    ensures WellFormed(t) && t.state == Stopped && t.callbacks == []
  {
    TweenData(start, end, Zero(start), easing, duration, 0.0, onComplete, Stopped, [])
  }

  /** default(T) for the variant of `v`. */
  function Zero(v: Value): (z: Value)
    ensures SameShape(z, v)
  {
    match v
    case FloatValue(_) => FloatValue(0.0)
    case Vector2Value(_) => Vector2Value(Vector2(0.0, 0.0))
    case Vector3Value(_) => Vector3Value(Vector3(0.0, 0.0, 0.0))
  }

  /** How many times onComplete has been invoked. */
  function Completions(calls: seq<Callback>): nat
  {
    multiset(calls)[OnComplete]
  }

  /** 1 while the completion callback is still set, else 0. */
  function Armed(t: TweenData): nat
  {
    if t.onComplete then 1 else 0
  }

  /** The base OnTick: the tween reports whether it is still playing. */
  function Active(t: TweenData): bool
  {
    t.state == Playing
  }

  /** Play: any state becomes Playing; nothing else changes. */
  function Play(t: TweenData): (r: TweenData)
    ensures Active(r) && r.(state := t.state) == t
  {
    if t.state != Playing then t.(state := Playing) else t
  }

  /** Pause: Playing becomes Paused, every other state is kept; nothing else changes. */
  function Pause(t: TweenData): (r: TweenData)
    ensures r.state == (if t.state == Playing then Paused else t.state)
    ensures r.(state := t.state) == t
  {
    if t.state == Playing then t.(state := Paused) else t
  }

  /** Stop: a no-op on a Stopped tween; otherwise the tween is Stopped with
      its time at `duration`, and the completion callback runs once if set,
      and is cleared. */
  function Stop(t: TweenData): (r: TweenData)
    ensures WellFormed(t) ==> WellFormed(r)
    ensures t.state == Stopped ==> r == t
    ensures t.state != Stopped ==>
      && r.state == Stopped && r.currentTime == t.duration && !r.onComplete
      && r.callbacks == t.callbacks + (if t.onComplete then [OnComplete] else [])
      && r.(state := t.state, currentTime := t.currentTime, onComplete := t.onComplete, callbacks := t.callbacks) == t
    ensures Completions(r.callbacks) + Armed(r) == Completions(t.callbacks) + Armed(t)
  {
    if t.state == Stopped then t
    else
      var s := t.(state := Stopped, currentTime := t.duration);
      if s.onComplete then s.(callbacks := s.callbacks + [OnComplete], onComplete := false) else s
  }

  /** The progress handed to the easing curve lies in [0, 1). */
  lemma ProgressInRange(time: real, duration: real)
    requires 0.0 <= time < duration
    ensures 0.0 <= time / duration < 1.0
  {
    var p := time / duration;
    assert p * duration == time;
  }

  /** The typed OnTick of FloatTween, Vector2Tween and Vector3Tween. Time
      accrues whatever the state; on reaching `duration` the tween is
      stopped, otherwise its value is eased at the progress and onPlaying
      runs. The state is consulted only by Stop. What happens in each of
      the two branches is stated by TickReachingDuration and
      TickBeforeDuration. */
  function Tick(lib: Library, t: TweenData, dt: real): (r: TweenData)
    requires WellFormed(t) && dt >= 0.0
    ensures WellFormed(r)
  {
    var s := t.(currentTime := t.currentTime + dt);
    if s.currentTime >= s.duration then
      Stop(s)
    else
      var v := GetValue(lib, s.easing, s.start, s.end, s.currentTime / s.duration);
      s.(value := v, callbacks := s.callbacks + [OnPlaying(v)])
  }

  /** Every tick keeps the tween's endpoints, easing and duration; leaves it
      Playing exactly when it was Playing and stays below `duration`; and
      conserves the number of onComplete calls made or still armed. */
  lemma TickKeeps(lib: Library, t: TweenData, dt: real)
    requires WellFormed(t) && dt >= 0.0
    ensures var r := Tick(lib, t, dt);
      && r.start == t.start && r.end == t.end && r.easing == t.easing && r.duration == t.duration
      && (Active(r) <==> Active(t) && t.currentTime + dt < t.duration)
      && Completions(r.callbacks) + Armed(r) == Completions(t.callbacks) + Armed(t)
  {
  }

  /** A tick that reaches `duration` goes through Stop: it computes no new
      value and does not notify onPlaying. A tween that was Playing or Paused
      ends at `duration` and fires onComplete if set; one that was Stopped
      (never played, or already complete) keeps the overshot time and fires
      nothing. */
  lemma TickReachingDuration(lib: Library, t: TweenData, dt: real)
    requires WellFormed(t) && dt >= 0.0 && t.currentTime + dt >= t.duration
    ensures var r := Tick(lib, t, dt);
      && r.state == Stopped && r.value == t.value
      && r.currentTime == (if t.state == Stopped then t.currentTime + dt else t.duration)
      && r.onComplete == (t.onComplete && t.state == Stopped)
      && r.callbacks == t.callbacks + (if t.state != Stopped && t.onComplete then [OnComplete] else [])
  {
  }

  /** A tick that stays below `duration` advances the time by `dt`, eases the
      value at a progress in [0, 1), notifies onPlaying once with that value
      and leaves the state as it was, whatever it was. */
  lemma TickBeforeDuration(lib: Library, t: TweenData, dt: real)
    requires WellFormed(t) && dt >= 0.0 && t.currentTime + dt < t.duration
    ensures var r := Tick(lib, t, dt);
      && t.duration > 0.0
      && 0.0 <= r.currentTime / t.duration < 1.0
      && r.currentTime == t.currentTime + dt
      && r.value == GetValue(lib, t.easing, t.start, t.end, r.currentTime / t.duration)
      && r.callbacks == t.callbacks + [OnPlaying(r.value)]
      && r.state == t.state && r.onComplete == t.onComplete
  {
    ProgressInRange(t.currentTime + dt, t.duration);
  }
}
