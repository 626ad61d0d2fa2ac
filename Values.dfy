/** The value types a tween interpolates, and the per-variant GetValue helpers. */
module Values {
  import opened Easing

  datatype Vector2 = Vector2(x: real, y: real)
  datatype Vector3 = Vector3(x: real, y: real, z: real)

  /** The value of a FloatTween, a Vector2Tween or a Vector3Tween. */
  datatype Value =
    | FloatValue(f: real)
    | Vector2Value(v2: Vector2)
    | Vector3Value(v3: Vector3)

  /** Two values of the same typed variant. */
  predicate SameShape(a: Value, b: Value)
  {
    a.FloatValue? == b.FloatValue? && a.Vector2Value? == b.Vector2Value? && a.Vector3Value? == b.Vector3Value?
  }

  /** Vector2Tween.GetValue: each axis is eased on its own. */
  function GetVector2(lib: Library, kind: EasingType, from: Vector2, to: Vector2, progress: real): Vector2
  {
    Vector2(Evaluate(lib, kind, from.x, to.x, progress),
            Evaluate(lib, kind, from.y, to.y, progress))
  }

  /** Vector3Tween.GetValue: each axis is eased on its own. */
  function GetVector3(lib: Library, kind: EasingType, from: Vector3, to: Vector3, progress: real): Vector3
  {
    Vector3(Evaluate(lib, kind, from.x, to.x, progress),
            Evaluate(lib, kind, from.y, to.y, progress),
            Evaluate(lib, kind, from.z, to.z, progress))
  }

  /** GetValue of the variant `from` belongs to (FloatTween evaluates directly). */
  function GetValue(lib: Library, kind: EasingType, from: Value, to: Value, progress: real): (r: Value)
    requires SameShape(from, to)
    ensures SameShape(r, from)
  {
    match from
    case FloatValue(a) => FloatValue(Evaluate(lib, kind, a, to.f, progress))
    case Vector2Value(a) => Vector2Value(GetVector2(lib, kind, a, to.v2, progress))
    case Vector3Value(a) => Vector3Value(GetVector3(lib, kind, a, to.v3, progress))
  }

  function Drop(v: Vector3): Vector2
  {
    Vector2(v.x, v.y)
  }

  /** Each axis of a vector tween is the scalar curve of that axis alone: the
      x and y axes of a Vector3 evaluation are a Vector2 evaluation of the
      same axes, and the z axis is what a FloatTween over z computes. */
  lemma AxesAreEasedIndependently(lib: Library, kind: EasingType, from: Vector3, to: Vector3, progress: real)
    ensures Drop(GetVector3(lib, kind, from, to, progress)) == GetVector2(lib, kind, Drop(from), Drop(to), progress)
    ensures GetValue(lib, kind, FloatValue(from.z), FloatValue(to.z), progress)
         == FloatValue(GetVector3(lib, kind, from, to, progress).z)
  {
  }

  /** Changing the endpoints of one axis changes no other axis. */
  lemma AxisChangeIsLocal(lib: Library, kind: EasingType, from: Vector3, to: Vector3, from': Vector3, to': Vector3, progress: real)
    requires from.y == from'.y && to.y == to'.y && from.z == from'.z && to.z == to'.z
    ensures GetVector3(lib, kind, from', to', progress).y == GetVector3(lib, kind, from, to, progress).y
    ensures GetVector3(lib, kind, from', to', progress).z == GetVector3(lib, kind, from, to, progress).z
  {
  }
}
