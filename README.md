# ETween: tween lifecycle and registry, modelled in Dafny

ETween is a small Unity tweening helper that lives in one C# file, `ETween.cs`. This project models three parts of it:

- **The `Tween<T>` state machine.** A tween is `Playing`, `Paused` or `Stopped`, and starts `Stopped`. `Play`, `Pause` and `Stop` are guarded transitions. `Stop` moves the time to `duration` and runs the completion callback once, then clears it.
- **The typed per-frame update of `FloatTween`, `Vector2Tween` and `Vector3Tween`.** `OnTick(dt)` adds `dt` to the time. On reaching `duration` it stops the tween. Otherwise it sets `value` to the eased progress and calls `onPlaying`. It returns whether the tween is still `Playing`.
- **The `ETween` registry.** It is an ordered list of tweens. `AddTween` appends. `RemoveTween` stops a tween and unregisters its first occurrence. `Move` builds, registers and plays a `Vector3Tween`. Each frame, `Update` walks the list from the end and unregisters a tween whose tick reported it inactive. It does so only if the index is still inside the list and still holds that tween.

Modules, following the structure of the source:

- `Easing`:
  - the `EasingType` enum;
  - the easing library, passed as a function parameter;
  - `Evaluate`, the dispatch of `Tween<T>.Evaluate`.
- `Values`:
  - `Vector2`/`Vector3`;
  - one `Value` type for the three typed variants;
  - the per-variant `GetValue` helpers.
- `TweenSpec`: a tween's fields as one record (`TweenData`), and `Play`, `Pause`, `Stop` and the typed tick (`Tick`) as functions on it. Callback invocations are recorded in a log (`callbacks`).
- `Tweens`:
  - class `Tween`, whose fields the methods update in place;
  - the three constructors, one per typed subclass.

  Each method is proved to leave `Data()` equal to the matching `TweenSpec` function of the old `Data()`.
- `Lifecycle`: properties of whole call sequences (`Run` over `Command`s). Examples: completion at most once, and ticks summing to `duration`.
- `RegistrySpec`: the registry's list operations, and one pass of `Update` as a function.
  - `Sweep` is the pass over a list of identities and a map from identity to fields.
  - Callbacks that touch the list during a tick are a parameter, `Reentry`. It gives the positions of the tweens that stay registered, in their new order.
  - `SnapshotSweep` is the corrected pass (see Findings).
- `Registry`:
  - class `ETween`, holding the registered list as a field;
  - its methods, proved against `Sweep` and `SnapshotSweep`.
- `Findings`: two inputs on which `Update` as written goes wrong, and what the corrected pass does on the same inputs.

One might expect no time to accrue while a tween is `Paused`, and the model follows the code, which does otherwise. The typed `OnTick` (ETween.cs:191, 218, 245) adds `dt` and calls `onPlaying` whatever the state. It only reports the paused tween as inactive, so `Update` unregisters it on its next frame. `Lifecycle.PausedTweenStillAdvances` states this.

The guard on the removal in `Update` (ETween.cs:296) is there so that callbacks may change the registry during a frame. As written the loop does not always cope with such callbacks: see Findings.

## Model

| member | source | states |
|---|---|---|
| Tweens.Tween.Float | ETween.cs:57-69 | A new FloatTween has the given endpoints, easing, duration and completion callback. Its value and time are zero, its state is Stopped and no callback has run (`TweenSpec.Fresh`). |
| Tweens.Tween.Vector2 | ETween.cs:57-69 | As `Float`, for a Vector2Tween. |
| Tweens.Tween.Vector3 | ETween.cs:57-69 | As `Float`, for a Vector3Tween. |
| Tweens.Tween.Play | ETween.cs:71-77 | The tween is Playing afterwards, from any state, and no other field changes. |
| Tweens.Tween.Pause | ETween.cs:79-85 | Playing becomes Paused; any other state is kept; no other field changes. |
| Tweens.Tween.Stop | ETween.cs:87-101 | A Stopped tween is unchanged. Otherwise the tween is Stopped with `currentTime == duration`, and onComplete runs once if set and is cleared. |
| Tweens.Tween.OnTick | ETween.cs:189-203 | The new fields are `TweenSpec.Tick` of the old ones. The result is true exactly when the tween is Playing afterwards (the base OnTick, ETween.cs:103-106). |
| TweenSpec.Fresh | ETween.cs:69 | A fresh tween is well formed, Stopped, and has run no callback. |
| TweenSpec.Play | ETween.cs:71-77 | The result is Playing and differs from the input in the state at most. |
| TweenSpec.Pause | ETween.cs:79-85 | The state becomes Paused if it was Playing and is kept otherwise; no other field changes. |
| TweenSpec.Stop | ETween.cs:87-101 | A Stopped tween is unchanged. Otherwise: Stopped, time at duration, onComplete logged once if it was set and then cleared, other fields kept. Completions made plus completions still armed is conserved. |
| TweenSpec.Active | ETween.cs:103-106 | The base OnTick's report: true exactly when the tween is Playing. |
| TweenSpec.Tick | ETween.cs:189-203 | The typed OnTick of all three variants as one function on the fields. Its result is well formed: the three values stay in one variant, and the time stays non-negative or at or past duration. What each branch does is stated by the next three rows. |
| TweenSpec.TickKeeps | ETween.cs:189-203 | A tick keeps endpoints, easing and duration. The tween is Playing afterwards exactly when it was Playing and stayed below duration. Completions made plus armed is conserved. |
| TweenSpec.TickReachingDuration | ETween.cs:191-195 | A tick reaching duration goes through Stop and computes no value. A Playing or Paused tween ends at duration and fires onComplete if set. A Stopped one keeps the overshot time and fires nothing. |
| TweenSpec.TickBeforeDuration | ETween.cs:196-200 | A tick below duration adds `dt` and eases the value at progress `currentTime / duration`, which lies in [0, 1). It notifies onPlaying once with that value and keeps the state. |
| Easing.Evaluate | ETween.cs:108-179 | Evaluates the curve of the tween's kind at the given endpoints and progress. Each of the 32 named kinds selects its own curve. An `EasingType` value outside the named kinds, which C# allows through a cast, reaches the default and throws `NotSupportedException`; the datatype has only the named kinds, so this error path is not modelled. |
| Values.GetVector2 | ETween.cs:208-214 | Each axis of the result is the curve evaluated on that axis's endpoints at the same progress. |
| Values.GetVector3 | ETween.cs:234-241 | As `GetVector2`, on three axes. |
| Values.GetValue | ETween.cs:184-187 | The eased value belongs to the same typed variant as the endpoints. |
| Values.AxesAreEasedIndependently | ETween.cs:234-241 | On x and y, the Vector3 evaluation is the Vector2 evaluation; on z, it is the Float evaluation. |
| Values.AxisChangeIsLocal | ETween.cs:234-241 | Changing one axis's endpoints changes no other axis of the result. |
| Lifecycle.RunConservesCompletions | ETween.cs:96-99 | Over any sequence of Play, Pause, Stop and ticks, completions made plus completions still armed stays the same. |
| Lifecycle.CompletesAtMostOnce | ETween.cs:87-101 | A fresh tween fires onComplete at most once, whatever calls it receives between callbacks. |
| Lifecycle.TicksToDurationCompleteOnce | ETween.cs:189-203 | A playing tween ticked by positive steps that sum to its remaining time ends Stopped at duration, with onComplete fired exactly once. Its callbacks grow by one onPlaying per earlier step, then one onComplete. |
| Lifecycle.NonnegTicksCompleteOnce | ETween.cs:189-203 | A playing tween ticked by steps that may be zero (frames while the game is paused) and that sum to its remaining time ends Stopped at duration, with onComplete fired exactly once. |
| Lifecycle.ZeroTicksKeepStopped | ETween.cs:189-195 | Ticks that add up to zero leave a tween that is Stopped at its duration exactly as it is: the time does not move, Stop is a no-op and nothing fires. |
| Lifecycle.OvershootCompletesWithoutPlaying | ETween.cs:192-195 | A step that reaches duration stops a playing tween, keeps its value and does not notify onPlaying. |
| Lifecycle.PausedTweenStillAdvances | ETween.cs:191-200 | A paused tween's tick still adds `dt` and notifies onPlaying. It stays Paused and reports itself inactive. |
| Lifecycle.UnplayedTweenNeverCompletes | ETween.cs:89-92 | A never-played tween crossing duration only has its time advanced. It stays Stopped and fires nothing. |
| Lifecycle.PauseThenPlayRestores | ETween.cs:71-85 | Pausing a playing tween and playing it again restores it exactly, so it resumes from the same time. |
| Lifecycle.StopIsIdempotent | ETween.cs:87-92 | A second Stop changes nothing. |
| Lifecycle.QuarterSteps | ETween.cs:189-203 | A one-second tween, played and ticked four times by 0.25, notifies onPlaying at progress 0.25, 0.5 and 0.75, then completes at time 1.0. |
| RegistrySpec.RemoveAt | ETween.cs:298 | List.RemoveAt: the list is one shorter; elements before the index stay where they are, and those after it move down one place. |
| RegistrySpec.RemoveFirst | ETween.cs:287 | List.Remove: a list without the tween is unchanged, and a list with it loses exactly one element. |
| RegistrySpec.RemoveFirstSplits | ETween.cs:287 | List.Remove takes out the element at the first index holding the tween and keeps all others in order. |
| RegistrySpec.RemoveFirstCounts | ETween.cs:287 | List.Remove takes exactly one occurrence out of the list, if there is one, and nothing else. |
| RegistrySpec.Sweep | ETween.cs:290-301 | A pass keeps every tween's fields well formed and registers no new tween. It throws only for an index at or past the end of the list. |
| RegistrySpec.SweepInertFilters | ETween.cs:293-299 | With callbacks that leave the list alone and no tween listed twice, the pass from `i` down to 0 ends normally. It ticks each of `s[0..i]` once and keeps those still Playing, in order. The rest of the list is untouched. |
| RegistrySpec.WholeSweepInert | ETween.cs:290-301 | Under the same conditions, a whole frame ticks every tween once. It leaves the original list filtered to the tweens still Playing, in their original order. |
| RegistrySpec.FrameBeyondAllDurations | ETween.cs:290-301 | With callbacks that leave the list alone and no tween listed twice, a frame that takes every registered tween to its duration ends normally with an empty list. Every listed tween ends Stopped. onComplete fires exactly once for each tween that was Playing or Paused with it set, and never for one that was not played. Unlisted tweens are unchanged. |
| RegistrySpec.SnapshotSweep | ETween.cs:290-301 | The corrected pass always ends normally, whatever the callbacks do to the list, and registers no new tween. |
| RegistrySpec.SnapshotTicksOnce | ETween.cs:293-299 | For any callbacks and a snapshot with no tween listed twice, the corrected pass ticks each listed tween at most once and leaves all others alone. Every tween still registered at the end was ticked. |
| RegistrySpec.SnapshotAgreesWhenInert | ETween.cs:293-299 | With callbacks that leave the list alone and no tween listed twice, the corrected pass computes exactly what the loop as written computes. |
| RegistrySpec.WholeSnapshotSweep | ETween.cs:290-301 | For a list with no tween listed twice, a whole corrected frame ticks each tween at most once and ticks every survivor. With callbacks that leave the list alone, it equals the frame as written. |
| Registry.ETween.constructor | ETween.cs:263 | The registry starts empty. |
| Registry.ETween.AddTween | ETween.cs:279-282 | The tween is appended at the end, even if already registered. |
| Registry.ETween.RemoveTween | ETween.cs:284-288 | The tween's fields become `TweenSpec.Stop` of the old ones, and the list loses the first occurrence of the tween. |
| Registry.ETween.Move | ETween.cs:265-277 | Exactly one new Vector3 tween is appended, with the given endpoints, easing, duration and completion callback, and it is Playing. The earlier list is unchanged. |
| Registry.UpdateStep | ETween.cs:295-299 | One iteration at an in-range index: tick the tween, apply the callbacks' changes, then perform the guarded RemoveAt. It advances `Sweep` by one index. |
| Registry.SweepList | ETween.cs:293-300 | The loop from the last index down to 0 computes the list, the fields and the outcome (normal or out of range) that `Sweep` gives. |
| Registry.ETween.Update | ETween.cs:290-301 | After a frame, the list and every registered tween's fields equal the result of `Sweep` on the state before, and so does the outcome. |
| Registry.SnapshotUpdateStep | ETween.cs:295-299 | One iteration of the corrected loop advances `SnapshotSweep` by one index. |
| Registry.SnapshotSweepList | ETween.cs:293-300 | The corrected loop computes what `SnapshotSweep` gives. |
| Registry.ETween.SafeUpdate | ETween.cs:290-301 | After a corrected frame, the list and the fields are those of `SnapshotSweep` on the state before. |
| Findings.OverrunAfterTwoRemovals | ETween.cs:295 | Three tweens; while the third is ticked, a callback unregisters the first two. The next read, at index 1, is past the end. The corrected pass ends normally on the same input. |
| Findings.DoubleTickAfterOneRemoval | ETween.cs:293-299 | Three tweens; while the third is ticked, a callback unregisters the first one. The third tween moves to index 1 and is ticked again. |
| Findings.DoubleTickAdvancesTwice | ETween.cs:293-299 | On that input with started one-second tweens and a 0.25 frame, the third tween ends the frame at time 0.5 with two onPlaying calls. The corrected pass ticks it once, to 0.25, and keeps it registered. |

## Left out

- The easing formulas of class `Easing`: they are floating-point numerics and not part of this model. The library is a parameter `Library` of every operation that evaluates a curve, so every property holds for any curve.
- The `switch` in `Tween<T>.Evaluate` (ETween.cs:108-179): it becomes one application of the library to the kind. An `EasingType` value outside the 32 named kinds, which C# allows through a cast assigned to the public `type` field (ETween.cs:62), reaches the default and throws `NotSupportedException` (ETween.cs:176-177) on the first tick below duration. The datatype has only the named kinds, so this error path is not modelled.
- Float rounding and overflow in `currentTime += elapsedTime` and `currentTime / duration`: time is `real`.
- Unity glue: `MonoBehaviour`, the `GameObject go` field and the `onPlaying` lambda writing `go.transform.position` (ETween.cs:273). Callbacks are a log of their invocations (`OnPlaying(value)`, `OnComplete`). onPlaying is always set, as it is in `Move`; a null onPlaying (a `NullReferenceException` in the source) is not modelled.
- `Time.deltaTime` is the parameter `dt`. It is required to be non-negative.
- The static list and static methods of `ETween` become one registry object with a `tweens` field.
- Writes to a tween's public fields after construction: the constructors take those fields as arguments.
- The C# class hierarchy and the `ITween` interface: one class `Tween` whose `Value` variant is chosen by its constructor stands for the three typed subclasses.
- Registry.ETween.Update: a callback's effect on the registry is limited to the list. It may unregister, reorder or repeat registered tweens, but it can neither register a new tween nor change any tween's fields: not another tween's (for example by stopping it through `RemoveTween`), and not the ticked tween's own (for example an onPlaying that calls `Pause()` on it).
- Registry.ETween.SafeUpdate: the same limit on callbacks applies.
- Lifecycle.CompletesAtMostOnce: the bound covers calls made between callbacks only. `Stop` invokes onComplete before it clears the field (ETween.cs:98-99), so an onComplete that calls `Play()` and then `Stop()` on its own tween re-enters `Stop` while the field is still set and fires again. Calls made from inside a callback are not modelled.
- Tweens.Tween.Stop: invoking onComplete and clearing the field are one step. The callback is assumed not to call into the tween or the registry in between.
- Registry.ETween.RemoveTween: the onComplete run by `Stop` (ETween.cs:286) is assumed to leave the registry alone. In the source it runs before `tweens.Remove` (ETween.cs:287) and may call `Move`, `AddTween` or `RemoveTween`, for example to chain the next tween. The ensures does not cover those callbacks.
- RegistrySpec.SnapshotTicksOnce: `AddTween` lets a tween be registered twice, and the corrected pass then ticks it once per listing. The at-most-once bound is proved for lists without repeats only.
- Registry.ETween.Move: `Move` returns nothing in the source, so the new tween is identified as the last list element.
- The commented usage example at ETween.cs:303.

## Findings

| source | as written | input that shows it | evidently intended | confidence | as-written member | corrected member |
|---|---|---|---|---|---|---|
| ETween.cs:293-295 | `tweens[i]` is read at the top of each iteration with no range check. If a callback run by `OnTick` at index `i` leaves fewer than `i` tweens in the list, the next read, at `i - 1`, is past the end, and `List<T>`'s indexer throws `ArgumentOutOfRangeException`. This happens, for example, when two tweens are dropped on the first iteration. | Three tweens. While the third is ticked (i = 2), its callback unregisters the first two. The list becomes one tween long and the read at i = 1 throws. | A frame survives callbacks that change the registry, as the guard at line 296 is meant to ensure. Walk a copy of the list taken at the start of the frame, skip tweens no longer registered, and unregister a finished tween by identity. | not executed | Findings.OverrunAfterTwoRemovals | RegistrySpec.SnapshotSweep |
| ETween.cs:293-299 | When a callback unregisters one tween below `i`, the tween just ticked moves down to `i - 1`, and the next iteration ticks it a second time in the same frame. | Three started tweens and a 0.25 frame. While the third is ticked, its callback unregisters the first. The third tween is ticked at i = 2 and again at i = 1, ending at time 0.5 with two onPlaying calls. | Each registered tween is ticked at most once per frame, and every tween that stays registered is ticked. | not executed | Findings.DoubleTickAdvancesTwice | RegistrySpec.SnapshotTicksOnce |
