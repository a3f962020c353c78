/** `ClickToMoveController`: a character walked to clicked points by a
    single position tween, with a scripted jump that falls back to a fixed
    ground height. Tween start and completion are explicit events; the
    interpolation between them, the easing and the facing rotation are not
    modelled. The distance to a target is an input (it is a square root of
    the engine's vectors). */
module ClickToMove {
  import opened Common
  import Animation

  datatype Mode = Idle | Moving

  const DefaultMoveSpeed: real := 100.0
  const DefaultJumpForce: real := 8.0
  const DefaultGravity: real := 20.0

  /** The height the jump lands on. */
  const GroundHeight: real := 2.0

  /** How close to the ground height the character must be to jump. */
  const JumpTolerance: real := 0.1

  /** A move tween: its identity, the x and z it heads for, its duration in
      milliseconds, and whether its start callback has run. */
  datatype MoveTween = MoveTween(id: nat, goalX: real, goalZ: real, duration: real, started: bool)

  datatype Walker = Walker(
    position: Vec3,
    mode: Mode,
    isMoving: bool,
    isJumping: bool,
    jumpVelocity: real,
    moveSpeed: real,
    jumpForce: real,
    gravity: real,
    group: seq<MoveTween>,
    current: Option<nat>,      // id of `currentTween`
    nextTween: nat,
    bodyPosition: Vec3,
    bodyVelocity: Vec3,
    anim: Animation.Controller)

  function Abs(x: real): real { if x < 0.0 then -x else x }

  /** `playIdleAnimation`: 'idle' when the clip exists. */
  function PlayIdle(a: Animation.Controller): (r: Animation.Controller)
    ensures Animation.HasAnimation(a, "idle") ==> r.current == Animation.Find(a.entries, "idle")
    ensures !Animation.HasAnimation(a, "idle") ==> r == a
    ensures r == a.(current := r.current)
  {
    if Animation.HasAnimation(a, "idle") then Animation.PlayAnimation(a, "idle").controller else a
  }

  /** 'run' when the clip exists, else 'walk' when that exists. */
  function PlayMove(a: Animation.Controller): (r: Animation.Controller)
    ensures Animation.HasAnimation(a, "run") ==> r.current == Animation.Find(a.entries, "run")
    ensures !Animation.HasAnimation(a, "run") && Animation.HasAnimation(a, "walk") ==>
              r.current == Animation.Find(a.entries, "walk")
    ensures !Animation.HasAnimation(a, "run") && !Animation.HasAnimation(a, "walk") ==> r == a
    ensures r == a.(current := r.current)
  {
    if Animation.HasAnimation(a, "run") then Animation.PlayAnimation(a, "run").controller
    else if Animation.HasAnimation(a, "walk") then Animation.PlayAnimation(a, "walk").controller
    else a
  }

  /** The constructor, with the options' `moveSpeed`, `jumpForce`,
      `gravity` and position or their defaults. */
  function Create(moveSpeed: Option<real>, jumpForce: Option<real>, gravity: Option<real>,
                  clips: seq<string>, position: Option<Vec3>): (w: Walker)
    ensures w.moveSpeed == (if moveSpeed.Some? then moveSpeed.value else DefaultMoveSpeed)
    ensures w.jumpForce == (if jumpForce.Some? then jumpForce.value else DefaultJumpForce)
    ensures w.gravity == (if gravity.Some? then gravity.value else DefaultGravity)
    ensures w.mode == Idle && !w.isMoving && !w.isJumping && w.jumpVelocity == 0.0
    ensures w.group == [] && w.current.None?
    ensures w.position == (if position.Some? then position.value else Vec3(0.0, 2.0, 0.0))
    ensures w.bodyPosition == w.position && w.bodyVelocity == Origin
    ensures w.anim == PlayIdle(Animation.Create(clips))
    ensures OneTween(w)
  {
    var p := if position.Some? then position.value else Vec3(0.0, 2.0, 0.0);
    Walker(p, Idle, false, false, 0.0,
           if moveSpeed.Some? then moveSpeed.value else DefaultMoveSpeed,
           if jumpForce.Some? then jumpForce.value else DefaultJumpForce,
           if gravity.Some? then gravity.value else DefaultGravity,
           [], None, 0, p, Origin, PlayIdle(Animation.Create(clips)))
  }

  /** The group holds at most one tween, it is `currentTween`, and the
      character is moving exactly while it is there. */
  predicate OneTween(w: Walker) {
    && |w.group| <= 1
    && (forall k :: 0 <= k < |w.group| ==> w.current == Some(w.group[k].id))
    && (w.isMoving <==> |w.group| == 1)
  }

  /** `moveTo(target)`, `distance` being the current distance to it: any
      existing tween is stopped and the group emptied, then one new tween
      for x and z only, lasting `distance * moveSpeed`. */
  function MoveTo(w: Walker, target: Vec3, distance: real): (r: Walker)
    ensures r.isMoving && r.current == Some(w.nextTween) && |r.group| >= 1
    ensures r.group[|r.group| - 1] == MoveTween(w.nextTween, target.x, target.z, distance * w.moveSpeed, false)
    ensures w.current.Some? ==> |r.group| == 1
    ensures r == w.(isMoving := true, group := r.group, current := r.current, nextTween := w.nextTween + 1)
    ensures OneTween(w) ==> OneTween(r)
  {
    var t := MoveTween(w.nextTween, target.x, target.z, distance * w.moveSpeed, false);
    var kept := if w.current.Some? then [] else w.group;
    assert OneTween(w) && |w.group| > 0 ==> w.current.Some? by {
      if OneTween(w) && |w.group| > 0 { assert w.current == Some(w.group[0].id); }
    }
    w.(isMoving := true, group := kept + [t], current := Some(t.id), nextTween := w.nextTween + 1)
  }

  /** Index of the tween with the given id in the group, if any. */
  function IndexOf(g: seq<MoveTween>, id: nat): (r: Option<nat>)
    ensures r.Some? ==> r.value < |g| && g[r.value].id == id
    ensures r.None? ==> forall k :: 0 <= k < |g| ==> g[k].id != id
  {
    if g == [] then None
    else if g[0].id == id then Some(0)
    else match IndexOf(g[1..], id)
      case None => None
      case Some(k) => Some(k + 1)
  }

  /** The first group update after tween `id` started runs its start
      callback once: state Moving, and the run (else walk) clip. */
  function TweenStarted(w: Walker, id: nat): (r: Walker)
    ensures IndexOf(w.group, id).None? || w.group[IndexOf(w.group, id).value].started ==> r == w
    ensures IndexOf(w.group, id).Some? && !w.group[IndexOf(w.group, id).value].started ==>
              && r.mode == Moving && r.anim == PlayMove(w.anim)
              && r.group == w.group[IndexOf(w.group, id).value :=
                                      w.group[IndexOf(w.group, id).value].(started := true)]
    ensures r == w.(mode := r.mode, anim := r.anim, group := r.group)
    ensures OneTween(w) ==> OneTween(r)
  {
    match IndexOf(w.group, id)
    case None => w
    case Some(k) =>
      if w.group[k].started then w
      else w.(mode := Moving, anim := PlayMove(w.anim), group := w.group[k := w.group[k].(started := true)])
  }

  /** Tween `id` reaching its end: x and z are at its goal (y untouched),
      the tween leaves the group, the character is no longer moving, the
      state is Idle and the idle clip plays. A tween no longer in the group
      (stopped by a later `moveTo`) never completes. */
  function TweenCompleted(w: Walker, id: nat): (r: Walker)
    ensures IndexOf(w.group, id).None? ==> r == w
    ensures IndexOf(w.group, id).Some? ==>
              var t := w.group[IndexOf(w.group, id).value];
              && r.position == Vec3(t.goalX, w.position.y, t.goalZ)
              && !r.isMoving && r.mode == Idle && r.anim == PlayIdle(w.anim)
              && r.group == w.group[..IndexOf(w.group, id).value] + w.group[IndexOf(w.group, id).value + 1..]
    ensures r == w.(position := r.position, isMoving := r.isMoving, mode := r.mode, anim := r.anim,
                    group := r.group)
    ensures OneTween(w) ==> OneTween(r)
  {
    match IndexOf(w.group, id)
    case None => w
    case Some(k) =>
      var t := w.group[k];
      w.(position := Vec3(t.goalX, w.position.y, t.goalZ), isMoving := false, mode := Idle,
         anim := PlayIdle(w.anim), group := w.group[..k] + w.group[k + 1..])
  }

  /** Whether the character may jump: not already jumping and within
      `JumpTolerance` of the ground height. */
  predicate CanJump(w: Walker) {
    !w.isJumping && Abs(w.position.y - GroundHeight) < JumpTolerance
  }

  /** `jump`: when allowed, the jump starts at `jumpForce` and the 'Jump'
      clip plays if present; otherwise nothing changes. */
  function Jump(w: Walker): (r: Walker)
    ensures !CanJump(w) ==> r == w
    ensures CanJump(w) ==> && r.isJumping && r.jumpVelocity == w.jumpForce
                           && r == w.(isJumping := true, jumpVelocity := w.jumpForce, anim := r.anim)
    ensures CanJump(w) && Animation.HasAnimation(w.anim, "Jump") ==>
              r.anim.current == Animation.Find(w.anim.entries, "Jump")
    ensures CanJump(w) && !Animation.HasAnimation(w.anim, "Jump") ==> r.anim == w.anim
    ensures r.anim == w.anim.(current := r.anim.current)
  {
    if !CanJump(w) then w
    else
      var a := if Animation.HasAnimation(w.anim, "Jump") then Animation.PlayAnimation(w.anim, "Jump").controller
               else w.anim;
      w.(isJumping := true, jumpVelocity := w.jumpForce, anim := a)
  }

  /** A second jump while the first is in the air does nothing. */
  lemma NoJumpInAir(w: Walker)
    requires CanJump(w)
    ensures Jump(Jump(w)) == Jump(w)
  {
  }

  /** The jump and body-sync part of `update(dt)`: while jumping, gravity
      slows the rise, the height follows the velocity, and at or below the
      ground height the character is snapped to it, the jump ends and the
      run/walk clip (if moving) or the idle clip resumes. The body is then
      placed at the character and its velocity zeroed. */
  function Update(w: Walker, dt: real): (r: Walker)
    ensures !w.isJumping ==> r == w.(bodyPosition := w.position, bodyVelocity := Origin)
    ensures w.isJumping ==>
              var v := w.jumpVelocity - w.gravity * dt;
              var y := w.position.y + v * dt;
              && r.position.x == w.position.x && r.position.z == w.position.z
              && (y > GroundHeight ==> r.isJumping && r.jumpVelocity == v && r.position.y == y && r.anim == w.anim)
              && (y <= GroundHeight ==> && !r.isJumping && r.jumpVelocity == 0.0
                                        && r.position.y == GroundHeight
                                        && r.anim == if w.isMoving then PlayMove(w.anim) else PlayIdle(w.anim))
    ensures r.bodyPosition == r.position && r.bodyVelocity == Origin
    ensures r == w.(position := r.position, isJumping := r.isJumping, jumpVelocity := r.jumpVelocity,
                    anim := r.anim, bodyPosition := r.position, bodyVelocity := Origin)
  {
    var w' := if !w.isJumping then w
      else
        var v := w.jumpVelocity - w.gravity * dt;
        var y := w.position.y + v * dt;
        if y <= GroundHeight then
          w.(position := w.position.(y := GroundHeight), isJumping := false, jumpVelocity := 0.0,
             anim := if w.isMoving then PlayMove(w.anim) else PlayIdle(w.anim))
        else w.(position := w.position.(y := y), jumpVelocity := v);
    w'.(bodyPosition := w'.position, bodyVelocity := Origin)
  }

  /** A jump from the ground height whose first step already comes back
      down (for example because the frame is long) lands at once, and the
      character may jump again. */
  lemma LandingAllowsNextJump(w: Walker, dt: real)
    requires w.isJumping && w.position.y + (w.jumpVelocity - w.gravity * dt) * dt <= GroundHeight
    ensures CanJump(Update(w, dt))
  {
  }

  /** `dispose`: the current tween stopped and the group emptied. */
  function Dispose(w: Walker): (r: Walker)
    ensures r.group == []
    ensures r == w.(group := [], anim := r.anim)
    ensures r.anim == Animation.Dispose(w.anim)
  {
    w.(group := [], anim := Animation.Dispose(w.anim))
  }

  datatype Event = MoveEvent(target: Vec3, distance: real) | StartEvent(id: nat)
                 | CompleteEvent(id: nat) | JumpEvent | FrameEvent(dt: real)

  function Apply(w: Walker, e: Event): Walker {
    match e
    case MoveEvent(t, d) => MoveTo(w, t, d)
    case StartEvent(id) => TweenStarted(w, id)
    case CompleteEvent(id) => TweenCompleted(w, id)
    case JumpEvent => Jump(w)
    case FrameEvent(dt) => Update(w, dt)
  }

  function Replay(w: Walker, es: seq<Event>): Walker
    decreases |es|
  {
    if es == [] then w else Replay(Apply(w, es[0]), es[1..])
  }

  /** Whatever clicks, tween events, jumps and frames follow, the group
      never holds more than the one current tween, and the character is
      moving exactly while that tween runs. */
  lemma {:induction false} AtMostOneTween(w: Walker, es: seq<Event>)
    requires OneTween(w)
    ensures OneTween(Replay(w, es))
    decreases |es|
  {
    if es != [] {
      AtMostOneTween(Apply(w, es[0]), es[1..]);
    }
  }
}
