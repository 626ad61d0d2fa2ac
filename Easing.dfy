/** The curve selector and the easing library, as a tween sees them.
    The curve formulas themselves are not modelled: the library is a
    parameter of every operation that evaluates a curve. */
module Easing {

  /** EasingType: the closed set of curve kinds. */
  datatype EasingType =
    | Linear | Spring
    | EaseInQuad | EaseOutQuad | EaseInOutQuad
    | EaseInCubic | EaseOutCubic | EaseInOutCubic
    | EaseInQuart | EaseOutQuart | EaseInOutQuart
    | EaseInQuint | EaseOutQuint | EaseInOutQuint
    | EaseInSin | EaseOutSin | EaseInOutSin
    | EaseInExp | EaseOutExp | EaseInOutExp
    | EaseInCirc | EaseOutCirc | EaseInOutCirc
    | EaseInBack | EaseOutBack | EaseInOutBack
    | EaseInElastic | EaseOutElastic | EaseInOutElastic
    | EaseInBounce | EaseOutBounce | EaseInOutBounce

  /** The easing library: for a kind, the curve value between `start` and
      `end` at a normalised progress. Any total function will do. */
  type Library = (EasingType, real, real, real) -> real

  /** Tween.Evaluate: select the curve of `kind` and evaluate it. */
  function Evaluate(lib: Library, kind: EasingType, start: real, end: real, progress: real): real
  {
    lib(kind, start, end, progress)
  }
}
