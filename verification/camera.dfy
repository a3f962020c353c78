/** `CameraController`'s orbit parameters: distance to the target, the
    horizontal angle `theta`, the vertical angle `phi`, the pan offset and
    the target. Placing the camera from them (sines and cosines), panning
    along the camera's direction and the forward query are not modelled;
    angles are exact reals, with `Math.PI` as its double value. */
module Camera {
  import opened Common

  /** The double nearest to pi, as `Math.PI` holds it. */
  const Pi: real := 3.141592653589793

  const InitialDistance: real := 12.5
  const MinDistance: real := 2.0
  const MaxDistance: real := 30.0
  const ZoomSpeed: real := 2.0

  const InitialPhi: real := Pi / 4.0
  const MinPhi: real := 0.1
  const MaxPhi: real := Pi / 2.0 - 0.1
  const RotationSpeed: real := 0.005

  datatype Orbit = Orbit(target: Vec3, distance: real, theta: real, phi: real, pan: Vec3)

  /** The state after construction. */
  const Initial := Orbit(Origin, InitialDistance, 0.0, InitialPhi, Origin)

  /** Distance and pitch within their clamps. */
  predicate InBounds(o: Orbit) {
    MinDistance <= o.distance <= MaxDistance && MinPhi <= o.phi <= MaxPhi
  }

  lemma InitialInBounds()
    ensures InBounds(Initial)
  {
  }

  /** `zoom(delta)`: the distance moves by `delta * zoomSpeed` and is
      clamped to [2, 30]; nothing else changes. */
  function Zoom(o: Orbit, delta: real): (r: Orbit)
    ensures MinDistance <= r.distance <= MaxDistance
    ensures r == o.(distance := r.distance)
    ensures MinDistance <= o.distance + delta * ZoomSpeed <= MaxDistance ==>
              r.distance == o.distance + delta * ZoomSpeed
    ensures o.distance + delta * ZoomSpeed < MinDistance ==> r.distance == MinDistance
    ensures o.distance + delta * ZoomSpeed > MaxDistance ==> r.distance == MaxDistance
  {
    o.(distance := Clamp(o.distance + delta * ZoomSpeed, MinDistance, MaxDistance))
  }

  /** `rotate(dx, dy)`: `theta` turns by `-dx * rotationSpeed` without bound,
      `phi` by `dy * rotationSpeed` clamped to [0.1, pi/2 - 0.1]; distance,
      pan and target stay. */
  function Rotate(o: Orbit, dx: real, dy: real): (r: Orbit)
    ensures MinPhi <= r.phi <= MaxPhi
    ensures r.theta == o.theta - dx * RotationSpeed
    ensures r == o.(theta := r.theta, phi := r.phi)
    ensures MinPhi <= o.phi + dy * RotationSpeed <= MaxPhi ==> r.phi == o.phi + dy * RotationSpeed
    ensures o.phi + dy * RotationSpeed < MinPhi ==> r.phi == MinPhi
    ensures o.phi + dy * RotationSpeed > MaxPhi ==> r.phi == MaxPhi
  {
    o.(theta := o.theta - dx * RotationSpeed,
       phi := Clamp(o.phi + dy * RotationSpeed, MinPhi, MaxPhi))
  }

  /** `setDistance(d)`: the clamped value of `d`. */
  function SetDistance(o: Orbit, d: real): (r: Orbit)
    ensures MinDistance <= r.distance <= MaxDistance
    ensures MinDistance <= d <= MaxDistance ==> r.distance == d
    ensures r == o.(distance := r.distance)
  {
    o.(distance := Clamp(d, MinDistance, MaxDistance))
  }

  /** `resetRotation`. */
  function ResetRotation(o: Orbit): (r: Orbit)
    ensures r.theta == 0.0 && r.phi == InitialPhi
    ensures r.distance == o.distance && r.pan == o.pan && r.target == o.target
  {
    o.(theta := 0.0, phi := InitialPhi)
  }

  /** `resetPan`. */
  function ResetPan(o: Orbit): (r: Orbit)
    ensures r.pan == Origin
    ensures r == o.(pan := Origin)
  {
    o.(pan := Origin)
  }

  /** The orbit part of `reset(p)`: the target moves to `p`, the angles and
      the pan return to their initial values, the distance stays. */
  function Reset(o: Orbit, p: Vec3): (r: Orbit)
    ensures r == Orbit(p, o.distance, Initial.theta, Initial.phi, Initial.pan)
  {
    o.(target := p, theta := 0.0, phi := InitialPhi, pan := Origin)
  }

  /** Every operation keeps distance and pitch within their clamps. */
  lemma OperationsKeepBounds(o: Orbit, delta: real, dx: real, dy: real, d: real, p: Vec3)
    requires InBounds(o)
    ensures InBounds(Zoom(o, delta)) && InBounds(Rotate(o, dx, dy)) && InBounds(SetDistance(o, d))
    ensures InBounds(ResetRotation(o)) && InBounds(ResetPan(o)) && InBounds(Reset(o, p))
  {
  }

  /** Zooming back undoes a zoom that did not hit a bound. */
  lemma ZoomUndo(o: Orbit, delta: real)
    requires MinDistance <= o.distance <= MaxDistance
    requires MinDistance <= o.distance + delta * ZoomSpeed <= MaxDistance
    ensures Zoom(Zoom(o, delta), -delta) == o
  {
  }

  /** Rotating back undoes a rotation whose pitch did not hit a bound. */
  lemma RotateUndo(o: Orbit, dx: real, dy: real)
    requires MinPhi <= o.phi <= MaxPhi
    requires MinPhi <= o.phi + dy * RotationSpeed <= MaxPhi
    ensures Rotate(Rotate(o, dx, dy), -dx, -dy) == o
  {
  }

  /** Setting a distance twice is setting it once, and setting the
      distance the camera has changes nothing. */
  lemma SetDistanceIdempotent(o: Orbit, d: real)
    ensures SetDistance(SetDistance(o, d), d) == SetDistance(o, d)
    ensures InBounds(o) ==> SetDistance(o, o.distance) == o
  {
  }

  /** Resetting the rotation and the pan together, at the current target,
      is a full `reset`. */
  lemma ResetIsBothResets(o: Orbit)
    ensures Reset(o, o.target) == ResetPan(ResetRotation(o))
  {
  }

  /** Enough wheel steps in one direction reach the bound and stay there. */
  lemma ZoomSaturates(o: Orbit)
    requires MinDistance <= o.distance <= MaxDistance
    ensures Zoom(o, 14.0).distance == MaxDistance
    ensures Zoom(o, -14.0).distance == MinDistance
    ensures Zoom(Zoom(o, 14.0), 1.0) == Zoom(o, 14.0)
  {
  }
}
