/** `InputManager`'s bookkeeping: the key map, the Shift flag, the three
    mouse-button flags, the last pointer position, and the two
    read-and-reset accumulators (pointer-lock movement and drag). Event
    listener registration, the normalised pointer position and the
    normalisation of the movement vector are not modelled. */
module Input {
  import opened Common

  datatype Vec2 = Vec2(x: real, y: real)

  const Zero := Vec2(0.0, 0.0)

  datatype Inputs = Inputs(
    keys: map<string, bool>,
    shift: bool,
    delta: Vec2,
    locked: bool,
    left: bool,
    middle: bool,
    right: bool,
    last: Vec2,
    drag: Vec2)

  /** The state after construction. */
  const Initial := Inputs(map[], false, Zero, false, false, false, false, Zero, Zero)

  /** `handleKeyDown`: the code is held; Shift follows the event. */
  function KeyDown(s: Inputs, code: string, shiftKey: bool): (r: Inputs)
    ensures IsKeyPressed(r, code)
    ensures forall c :: c != code ==> IsKeyPressed(r, c) == IsKeyPressed(s, c)
    ensures r.shift == shiftKey
    ensures r == s.(keys := r.keys, shift := shiftKey)
  {
    s.(keys := s.keys[code := true], shift := shiftKey)
  }

  /** `handleKeyUp`: the code is released; Shift follows the event. */
  function KeyUp(s: Inputs, code: string, shiftKey: bool): (r: Inputs)
    ensures !IsKeyPressed(r, code)
    ensures forall c :: c != code ==> IsKeyPressed(r, c) == IsKeyPressed(s, c)
    ensures r.shift == shiftKey
    ensures r == s.(keys := r.keys, shift := shiftKey)
  {
    s.(keys := s.keys[code := false], shift := shiftKey)
  }

  /** `isKeyPressed(code)`: false for a code never seen. */
  predicate IsKeyPressed(s: Inputs, code: string)
    ensures code !in s.keys ==> !IsKeyPressed(s, code)
  {
    code in s.keys && s.keys[code]
  }

  /** A key event: `keydown` or `keyup` for a code, with the event's Shift
      state. */
  datatype KeyEvent = Press(code: string, shiftKey: bool) | Release(code: string, shiftKey: bool)

  function HandleKey(s: Inputs, e: KeyEvent): Inputs {
    match e
    case Press(code, sh) => KeyDown(s, code, sh)
    case Release(code, sh) => KeyUp(s, code, sh)
  }

  /** The key events of `es` handled in order. */
  function HandleKeys(s: Inputs, es: seq<KeyEvent>): Inputs
    decreases |es|
  {
    if es == [] then s else HandleKey(HandleKeys(s, es[..|es| - 1]), es[|es| - 1])
  }

  /** Whether the last event of `es` for `code` was a press, if there was
      one. */
  function LastFor(es: seq<KeyEvent>, code: string): Option<bool>
    decreases |es|
  {
    if es == [] then None
    else if es[|es| - 1].code == code then Some(es[|es| - 1].Press?)
    else LastFor(es[..|es| - 1], code)
  }

  /** After any run of key events a code reads as held exactly when its
      last event was a press (as before the run when it had none), and
      Shift follows the last event. */
  lemma {:induction false} PressedIffLastPress(s: Inputs, es: seq<KeyEvent>, code: string)
    ensures IsKeyPressed(HandleKeys(s, es), code) ==
              match LastFor(es, code) case Some(down) => down case None => IsKeyPressed(s, code)
    ensures es != [] ==> HandleKeys(s, es).shift == es[|es| - 1].shiftKey
    decreases |es|
  {
    if es != [] {
      PressedIffLastPress(s, es[..|es| - 1], code);
    }
  }

  /** Nothing is held before the first key event. */
  lemma NothingPressedInitially(code: string)
    ensures !IsKeyPressed(Initial, code)
  {
  }

  /** A press followed by a release of the same code leaves every key as it
      was, except that this one reads as released. */
  lemma KeyUpUndoesKeyDown(s: Inputs, code: string, sh1: bool, sh2: bool)
    ensures var r := KeyUp(KeyDown(s, code, sh1), code, sh2);
            && !IsKeyPressed(r, code)
            && (forall c :: c != code ==> IsKeyPressed(r, c) == IsKeyPressed(s, c))
  {
  }

  datatype Axes = Axes(x: int, z: int)

  /** `getMovementInput` before normalisation. */
  function MovementAxes(s: Inputs): (a: Axes)
    ensures -1 <= a.x <= 1 && -1 <= a.z <= 1
    ensures a.z == 1 <==> (IsKeyPressed(s, "KeyW") || IsKeyPressed(s, "ArrowUp"))
                          && !(IsKeyPressed(s, "KeyS") || IsKeyPressed(s, "ArrowDown"))
    ensures a.z == -1 <==> (IsKeyPressed(s, "KeyS") || IsKeyPressed(s, "ArrowDown"))
                           && !(IsKeyPressed(s, "KeyW") || IsKeyPressed(s, "ArrowUp"))
    ensures a.x == 1 <==> (IsKeyPressed(s, "KeyA") || IsKeyPressed(s, "ArrowLeft"))
                          && !(IsKeyPressed(s, "KeyD") || IsKeyPressed(s, "ArrowRight"))
    ensures a.x == -1 <==> (IsKeyPressed(s, "KeyD") || IsKeyPressed(s, "ArrowRight"))
                           && !(IsKeyPressed(s, "KeyA") || IsKeyPressed(s, "ArrowLeft"))
  {
    var forward := if IsKeyPressed(s, "KeyW") || IsKeyPressed(s, "ArrowUp") then 1 else 0;
    var backward := if IsKeyPressed(s, "KeyS") || IsKeyPressed(s, "ArrowDown") then -1 else 0;
    var left := if IsKeyPressed(s, "KeyA") || IsKeyPressed(s, "ArrowLeft") then 1 else 0;
    var right := if IsKeyPressed(s, "KeyD") || IsKeyPressed(s, "ArrowRight") then -1 else 0;
    Axes(left + right, forward + backward)
  }

  /** Holding both keys of an axis cancels it. */
  lemma OppositeKeysCancel(s: Inputs)
    requires IsKeyPressed(s, "KeyW") && IsKeyPressed(s, "KeyS")
    requires IsKeyPressed(s, "ArrowLeft") && IsKeyPressed(s, "KeyD")
    ensures MovementAxes(s) == Axes(0, 0)
  {
  }

  /** `handleMouseMove` at client position (x, y) with pointer movement
      (mx, my): the movement is stored while the pointer is locked, the drag
      is the step from the last position while the right or middle button
      is held, and the last position always follows the pointer. */
  function MouseMove(s: Inputs, x: real, y: real, mx: real, my: real): (r: Inputs)
    ensures r.last == Vec2(x, y)
    ensures r.delta == if s.locked then Vec2(mx, my) else s.delta
    ensures r.drag == if s.right || s.middle then Vec2(x - s.last.x, y - s.last.y) else s.drag
    ensures r == s.(last := r.last, delta := r.delta, drag := r.drag)
  {
    var d := if s.locked then Vec2(mx, my) else s.delta;
    var g := if s.right || s.middle then Vec2(x - s.last.x, y - s.last.y) else s.drag;
    s.(delta := d, drag := g, last := Vec2(x, y))
  }

  /** `handleMouseDown`: button 0, 1 or 2 sets its flag (any other button
      none); the last position becomes the press position. */
  function MouseDown(s: Inputs, button: int, x: real, y: real): (r: Inputs)
    ensures r.left == (s.left || button == 0)
    ensures r.middle == (s.middle || button == 1)
    ensures r.right == (s.right || button == 2)
    ensures r.last == Vec2(x, y)
    ensures r == s.(left := r.left, middle := r.middle, right := r.right, last := r.last)
  {
    var t := if button == 0 then s.(left := true)
             else if button == 1 then s.(middle := true)
             else if button == 2 then s.(right := true)
             else s;
    t.(last := Vec2(x, y))
  }

  /** `handleMouseUp`: button 0, 1 or 2 clears its flag; the drag is zeroed
      whatever the button. */
  function MouseUp(s: Inputs, button: int): (r: Inputs)
    ensures r.left == (s.left && button != 0)
    ensures r.middle == (s.middle && button != 1)
    ensures r.right == (s.right && button != 2)
    ensures r.drag == Zero
    ensures r == s.(left := r.left, middle := r.middle, right := r.right, drag := Zero)
  {
    var t := if button == 0 then s.(left := false)
             else if button == 1 then s.(middle := false)
             else if button == 2 then s.(right := false)
             else s;
    t.(drag := Zero)
  }

  /** `handlePointerLockChange`, with the engine's answer `locked`. */
  function PointerLockChange(s: Inputs, locked: bool): (r: Inputs)
    ensures r == s.(locked := locked)
  {
    s.(locked := locked)
  }

  datatype Read = Read(value: Vec2, inputs: Inputs)

  /** `getMouseDelta`: the stored movement, which is reset. */
  function TakeMouseDelta(s: Inputs): (r: Read)
    ensures r.value == s.delta && r.inputs == s.(delta := Zero)
  {
    Read(s.delta, s.(delta := Zero))
  }

  /** `getMouseDrag`: the stored drag, which is reset. */
  function TakeMouseDrag(s: Inputs): (r: Read)
    ensures r.value == s.drag && r.inputs == s.(drag := Zero)
  {
    Read(s.drag, s.(drag := Zero))
  }

  /** An immediate second read returns zero and changes nothing further. */
  lemma SecondReadIsZero(s: Inputs)
    ensures TakeMouseDelta(TakeMouseDelta(s).inputs) == Read(Zero, TakeMouseDelta(s).inputs)
    ensures TakeMouseDrag(TakeMouseDrag(s).inputs) == Read(Zero, TakeMouseDrag(s).inputs)
  {
  }

  /** A left-button drag moves no camera: with only the left button held,
      a pointer move leaves the drag as it was. */
  lemma LeftDragDoesNotDrag(s: Inputs, x0: real, y0: real, x: real, y: real)
    requires !s.middle && !s.right
    ensures var p := MouseDown(s, 0, x0, y0);
            MouseMove(p, x, y, 0.0, 0.0).drag == s.drag
  {
  }

  /** A right-button press then a move drags by exactly the step from the
      press position; releasing the button zeroes the drag. */
  lemma RightDragMeasuresStep(s: Inputs, x0: real, y0: real, x: real, y: real)
    ensures var m := MouseMove(MouseDown(s, 2, x0, y0), x, y, 0.0, 0.0);
            && m.drag == Vec2(x - x0, y - y0)
            && MouseUp(m, 2).drag == Zero && !MouseUp(m, 2).right
  {
  }
}
