/** Values shared by every part of the model: optional values, 3-vectors of
    reals, the `Math.max(lo, Math.min(hi, v))` clamp the site uses for
    camera distance, camera pitch and cloud durations, and substring
    search. */
module Common {

  /** `undefined` / a present value. */
  datatype Option<+T> = None | Some(value: T)

  /** A `THREE.Vector3` (or a plain `{x, y, z}` object) as exact reals. */
  datatype Vec3 = Vec3(x: real, y: real, z: real)

  const Origin := Vec3(0.0, 0.0, 0.0)

  function Max(a: real, b: real): real { if a >= b then a else b }

  function Min(a: real, b: real): real { if a <= b then a else b }

  /** `Math.max(lo, Math.min(hi, v))`: the nearest point of [lo, hi] to v. */
  function Clamp(v: real, lo: real, hi: real): (r: real)
    requires lo <= hi
    ensures lo <= r <= hi
    ensures lo <= v <= hi ==> r == v
    ensures v < lo ==> r == lo
    ensures hi < v ==> r == hi
  {
    Max(lo, Min(hi, v))
  }

  /** `String.prototype.includes`: `part` occurs in `text` at some offset. */
  predicate Contains(text: string, part: string)
    decreases |text|
  {
    |part| <= |text| && (text[..|part|] == part || Contains(text[1..], part))
  }
}
