/** Tween<T> with its typed subclasses FloatTween, Vector2Tween and
    Vector3Tween, as one class whose `start`, `end` and `value` belong to
    the variant chosen by its constructor. Every method is proved to follow
    the matching function of `TweenSpec`. */
module Tweens {
  import opened Easing
  import opened Values
  import opened TweenSpec

  class Tween {
    var start: Value
    var end: Value
    var value: Value
    var easing: EasingType
    var duration: real
    var currentTime: real
    var onComplete: bool
    var state: TweenState
    /** The callbacks invoked so far, oldest first: each onPlaying call with
        the value it sees (onPlaying is always set, as in Move), and each
        onComplete call. */
    ghost var callbacks: seq<Callback>

    ghost function Data(): TweenData
      reads this
    {
      TweenData(start, end, value, easing, duration, currentTime, onComplete, state, callbacks)
    }

    ghost predicate Valid()
      reads this
    {
      WellFormed(Data())
    }

    /** new FloatTween() with its public fields set. */
    constructor Float(start: real, end: real, easing: EasingType, duration: real, onComplete: bool)
      ensures Valid()
      ensures Data() == Fresh(FloatValue(start), FloatValue(end), easing, duration, onComplete)
    {
      this.start, this.end, this.value := FloatValue(start), FloatValue(end), FloatValue(0.0);
      this.easing, this.duration, this.currentTime := easing, duration, 0.0;
      this.onComplete, this.state, this.callbacks := onComplete, Stopped, [];
    }

    /** new Vector2Tween() with its public fields set. */
    constructor Vector2(start: Values.Vector2, end: Values.Vector2, easing: EasingType, duration: real, onComplete: bool)
      ensures Valid()
      ensures Data() == Fresh(Vector2Value(start), Vector2Value(end), easing, duration, onComplete)
    {
      this.start, this.end, this.value := Vector2Value(start), Vector2Value(end), Vector2Value(Values.Vector2(0.0, 0.0));
      this.easing, this.duration, this.currentTime := easing, duration, 0.0;
      this.onComplete, this.state, this.callbacks := onComplete, Stopped, [];
    }

    /** new Vector3Tween() with its public fields set. */
    constructor Vector3(start: Values.Vector3, end: Values.Vector3, easing: EasingType, duration: real, onComplete: bool)
      ensures Valid()
      ensures Data() == Fresh(Vector3Value(start), Vector3Value(end), easing, duration, onComplete)
    {
      this.start, this.end, this.value := Vector3Value(start), Vector3Value(end), Vector3Value(Values.Vector3(0.0, 0.0, 0.0));
      this.easing, this.duration, this.currentTime := easing, duration, 0.0;
      this.onComplete, this.state, this.callbacks := onComplete, Stopped, [];
    }

    /** Play: from any state the tween is Playing; no other field changes. */
    method Play()
      requires Valid()
      modifies this
      ensures Valid() && state == Playing
      ensures Data() == old(Data()).(state := Playing)
      ensures Data() == TweenSpec.Play(old(Data()))
    {
      if state != Playing {
        state := Playing;
      }
    }

    /** Pause: Playing becomes Paused, any other state is kept; no other field changes. */
    method Pause()
      requires Valid()
      modifies this
      ensures Valid()
      ensures state == (if old(state) == Playing then Paused else old(state))
      ensures Data() == old(Data()).(state := state)
      ensures Data() == TweenSpec.Pause(old(Data()))
    {
      if state == Playing {
        state := Paused;
      }
    }

    /** Stop: nothing happens to a Stopped tween; otherwise the tween is
        Stopped at `currentTime == duration` and onComplete runs once and is
        cleared. */
    method Stop()
      requires Valid()
      modifies this
      ensures Valid()
      ensures old(state) == Stopped ==> Data() == old(Data())
      ensures old(state) != Stopped ==>
        && state == Stopped && currentTime == duration && !onComplete
        && callbacks == old(callbacks) + (if old(onComplete) then [OnComplete] else [])
      ensures Data() == TweenSpec.Stop(old(Data()))
    {
      if state == Stopped {
        return;
      }
      state := Stopped;
      currentTime := duration;
      if onComplete {
        callbacks := callbacks + [OnComplete];
        onComplete := false;
      }
    }

    /** The typed OnTick(elapsedTime): the new state is TweenSpec.Tick of the
        old one, and the result is the base OnTick, i.e. whether the tween is
        Playing afterwards. */
    method OnTick(dt: real, lib: Library) returns (playing: bool)
      requires Valid() && dt >= 0.0
      modifies this
      ensures Valid()
      ensures Data() == Tick(lib, old(Data()), dt)
      ensures playing == Active(Data())
    {
      currentTime := currentTime + dt;
      if currentTime >= duration {
        Stop();
      } else {
        ProgressInRange(currentTime, duration);
        value := GetValue(lib, easing, start, end, currentTime / duration);
        callbacks := callbacks + [OnPlaying(value)];
      }
      playing := state == Playing;
    }
  }
}
