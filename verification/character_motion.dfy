/** `CharacterController`: the jump budget, the movement-state table and
    the animation each state asks for. The physics engine's answers (is the
    body on the ground, its velocity at the start of a frame) and the
    movement controller's output (the horizontal velocity and speed it
    computed) are inputs of each frame. */
module CharacterMotion {
  import opened Common
  import Animation

  datatype MovementState = Idle | Walking | Running | Jumping | Falling

  /** `maxJumps` when the options give none. */
  const DefaultMaxJumps: int := 2

  /** `getJumpSpeed()` of the movement controller the character builds. */
  const JumpSpeed: real := 5.0

  /** Vertical speed above which an airborne character counts as jumping. */
  const RisingThreshold: real := 0.5

  /** Horizontal speed above which a grounded character counts as moving. */
  const MovingThreshold: real := 0.1

  datatype Character = Character(
    maxJumps: int,
    jumpsRemaining: int,
    onGround: bool,
    state: MovementState,
    velocity: Vec3,        // the physics body's
    moveVelocity: Vec3,    // the movement controller's
    position: Vec3,
    anim: Animation.Controller)

  /** The constructor: a full jump budget, not on the ground, idle, and the
      'Idle' clip asked for. */
  function Create(maxJumps: Option<int>, clips: seq<string>, position: Option<Vec3>): (c: Character)
    ensures c.maxJumps == (if maxJumps.Some? then maxJumps.value else DefaultMaxJumps)
    ensures c.jumpsRemaining == c.maxJumps
    ensures !c.onGround && c.state == Idle
    ensures c.position == if position.Some? then position.value else Vec3(0.0, 2.0, 0.0)
    ensures c.anim == Animation.PlayAnimation(Animation.Create(clips), "Idle").controller
  {
    var m := if maxJumps.Some? then maxJumps.value else DefaultMaxJumps;
    var p := if position.Some? then position.value else Vec3(0.0, 2.0, 0.0);
    Character(m, m, false, Idle, Origin, Origin, p,
              Animation.PlayAnimation(Animation.Create(clips), "Idle").controller)
  }

  /** The budget stays within its bounds. */
  ghost predicate BudgetInRange(c: Character) {
    c.maxJumps >= 1 && 0 <= c.jumpsRemaining <= c.maxJumps
  }

  /** `checkGroundContact`, with the ray's verdict `hit`: landing refills the
      budget, leaving the ground with a full budget costs one jump, and
      nothing else touches it. */
  function CheckGroundContact(c: Character, hit: bool): (r: Character)
    ensures r == c.(onGround := hit, jumpsRemaining := r.jumpsRemaining)
    ensures hit && !c.onGround ==> r.jumpsRemaining == c.maxJumps
    ensures !hit && c.onGround && c.jumpsRemaining == c.maxJumps ==> r.jumpsRemaining == c.maxJumps - 1
    ensures hit == c.onGround || (!hit && c.jumpsRemaining != c.maxJumps) ==>
              r.jumpsRemaining == c.jumpsRemaining
    ensures BudgetInRange(c) ==> BudgetInRange(r)
  {
    if hit && !c.onGround then c.(onGround := true, jumpsRemaining := c.maxJumps)
    else if !hit && c.onGround then
      c.(onGround := false,
         jumpsRemaining := if c.jumpsRemaining == c.maxJumps then c.maxJumps - 1 else c.jumpsRemaining)
    else c.(onGround := hit)
  }

  /** `jump`: nothing with an empty budget; otherwise one jump is spent, the
      body leaves the ground and rises at `JumpSpeed`, keeping its
      horizontal velocity. */
  function Jump(c: Character): (r: Character)
    ensures c.jumpsRemaining <= 0 ==> r == c
    ensures c.jumpsRemaining > 0 ==>
              && r == c.(jumpsRemaining := c.jumpsRemaining - 1, onGround := false, velocity := r.velocity)
              && r.velocity == c.velocity.(y := JumpSpeed)
    ensures BudgetInRange(c) ==> BudgetInRange(r)
  {
    if c.jumpsRemaining <= 0 then c
    else c.(jumpsRemaining := c.jumpsRemaining - 1, onGround := false,
            velocity := c.velocity.(y := JumpSpeed))
  }

  /** The state table of `updateMovementState`. */
  function NextState(onGround: bool, horizontalSpeed: real, verticalVelocity: real, shift: bool): (s: MovementState)
    ensures s == Jumping <==> !onGround && verticalVelocity > RisingThreshold
    ensures s == Falling <==> !onGround && verticalVelocity <= RisingThreshold
    ensures s == Running <==> onGround && horizontalSpeed > MovingThreshold && shift
    ensures s == Walking <==> onGround && horizontalSpeed > MovingThreshold && !shift
    ensures s == Idle <==> onGround && horizontalSpeed <= MovingThreshold
  {
    if !onGround then (if verticalVelocity > RisingThreshold then Jumping else Falling)
    else if horizontalSpeed > MovingThreshold then (if shift then Running else Walking)
    else Idle
  }

  /** The clip each state asks for. */
  function ClipFor(s: MovementState): string {
    match s
    case Idle => "Idle"
    case Walking => "Fast_Run"
    case Running => "Fast_Run"
    case Jumping => "Jump"
    case Falling => "Jump"
  }

  /** `updateAnimation`: nothing without a mixer; airborne states switch to
      'Jump' only when that clip exists; the others ask for their clip. */
  function UpdateAnimation(c: Character): (r: Character)
    ensures r == c.(anim := r.anim)
    ensures !c.anim.hasMixer ==> r.anim == c.anim
    ensures (c.state == Jumping || c.state == Falling) && !Animation.HasAnimation(c.anim, "Jump") ==>
              r.anim == c.anim
    ensures c.anim.hasMixer && Animation.HasAnimation(c.anim, ClipFor(c.state)) ==>
              r.anim.current == Animation.Find(c.anim.entries, ClipFor(c.state))
    ensures !Animation.HasAnimation(c.anim, ClipFor(c.state)) ==> r.anim == c.anim
    ensures r.anim == c.anim.(current := r.anim.current)
  {
    if !c.anim.hasMixer then c
    else match c.state
      case Idle => c.(anim := Animation.PlayAnimation(c.anim, "Idle").controller)
      case Walking => c.(anim := Animation.PlayAnimation(c.anim, "Fast_Run").controller)
      case Running => c.(anim := Animation.PlayAnimation(c.anim, "Fast_Run").controller)
      case _ =>
        if Animation.HasAnimation(c.anim, "Jump")
        then c.(anim := Animation.PlayAnimation(c.anim, "Jump").controller)
        else c
  }

  /** In a valid animation controller that holds the state's clip, the
      current animation afterwards is that clip. */
  lemma AnimationFollowsState(c: Character)
    requires Animation.Valid(c.anim) && c.anim.hasMixer
    requires Animation.HasAnimation(c.anim, ClipFor(c.state))
    ensures var a := UpdateAnimation(c).anim;
            a.current.Some? && Animation.NameOf(a.entries, a.current.value) == Some(ClipFor(c.state))
  {
    Animation.PlayThenCurrentName(c.anim, ClipFor(c.state));
  }

  /** `setPosition`: the character is placed and both velocities are
      zeroed. */
  function SetPosition(c: Character, p: Vec3): (r: Character)
    ensures r.position == p && r.velocity == Origin && r.moveVelocity == Origin
    ensures r == c.(position := p, velocity := r.velocity, moveVelocity := r.moveVelocity)
  {
    c.(position := p, velocity := Origin, moveVelocity := Origin)
  }

  /** What one frame reads: the ground ray, the Space and Shift keys, the
      body's velocity and position as the engine left them, and the
      movement controller's horizontal velocity and speed. */
  datatype FrameInput = FrameInput(
    groundHit: bool, space: bool, shift: bool,
    bodyVelocity: Vec3, bodyPosition: Vec3, moveVelocity: Vec3, horizontalSpeed: real)

  datatype Stepped = Stepped(character: Character, jumped: bool)

  /** `update(deltaTime)`: ground check, the guarded jump, the horizontal
      velocity handed to the body (vertical kept), the mesh placed at the
      body's position, then the state and its animation. */
  function Update(c: Character, i: FrameInput): (r: Stepped)
    ensures r.jumped <==> i.space && CheckGroundContact(c, i.groundHit).jumpsRemaining > 0
    ensures r.jumped ==> r.character.state == Jumping && r.character.velocity.y == JumpSpeed
    ensures !r.jumped ==> r.character.velocity.y == i.bodyVelocity.y
    ensures r.character.velocity.x == i.moveVelocity.x && r.character.velocity.z == i.moveVelocity.z
    ensures r.character.jumpsRemaining ==
              CheckGroundContact(c, i.groundHit).jumpsRemaining - if r.jumped then 1 else 0
    ensures BudgetInRange(c) ==> BudgetInRange(r.character)
    ensures r.character.onGround == (i.groundHit && !r.jumped)
    ensures r.character.state ==
              NextState(r.character.onGround, i.horizontalSpeed, r.character.velocity.y, i.shift)
    ensures r.character.anim == UpdateAnimation(c.(state := r.character.state)).anim
    ensures r.character.moveVelocity == i.moveVelocity
    ensures r.character.position == i.bodyPosition && r.character.maxJumps == c.maxJumps
  {
    var g := CheckGroundContact(c.(velocity := i.bodyVelocity), i.groundHit);
    var jumped := i.space && g.jumpsRemaining > 0;
    var j := if jumped then Jump(g) else g;
    var v := Vec3(i.moveVelocity.x, j.velocity.y, i.moveVelocity.z);
    var s := j.(velocity := v, moveVelocity := i.moveVelocity, position := i.bodyPosition,
                state := NextState(j.onGround, i.horizontalSpeed, v.y, i.shift));
    Stepped(UpdateAnimation(s), jumped)
  }

  datatype Flight = Flight(character: Character, jumps: nat)

  /** A run of frames, counting the jumps taken. */
  function Replay(c: Character, inputs: seq<FrameInput>): (r: Flight)
    decreases |inputs|
  {
    if inputs == [] then Flight(c, 0)
    else
      var s := Update(c, inputs[0]);
      var rest := Replay(s.character, inputs[1..]);
      Flight(rest.character, rest.jumps + if s.jumped then 1 else 0)
  }

  /** While the ground ray never hits, the jumps taken are paid from the
      budget held at the start: their number plus what is left never exceeds
      it, and the budget stays within its bounds. */
  lemma {:induction false} AirJumpsBounded(c: Character, inputs: seq<FrameInput>)
    requires BudgetInRange(c)
    requires forall k :: 0 <= k < |inputs| ==> !inputs[k].groundHit
    ensures BudgetInRange(Replay(c, inputs).character)
    ensures Replay(c, inputs).jumps + Replay(c, inputs).character.jumpsRemaining <= c.jumpsRemaining
    decreases |inputs|
  {
    if inputs != [] {
      var s := Update(c, inputs[0]);
      AirJumpsBounded(s.character, inputs[1..]);
    }
  }

  /** Hence, between two landings, at most `maxJumps` jumps. */
  lemma AtMostMaxJumpsInAir(c: Character, inputs: seq<FrameInput>)
    requires BudgetInRange(c)
    requires forall k :: 0 <= k < |inputs| ==> !inputs[k].groundHit
    ensures Replay(c, inputs).jumps <= c.maxJumps
  {
    AirJumpsBounded(c, inputs);
  }

  /** From the ground with a full budget, jumping in one frame and again in
      the next (still airborne) spends two jumps: the double jump. */
  lemma DoubleJump(c: Character, i1: FrameInput, i2: FrameInput)
    requires c.maxJumps == DefaultMaxJumps && c.jumpsRemaining == c.maxJumps && c.onGround
    requires i1.groundHit && i1.space && !i2.groundHit && i2.space
    ensures var s1 := Update(c, i1);
            var s2 := Update(s1.character, i2);
            s1.jumped && s2.jumped && s2.character.jumpsRemaining == 0
            && !Update(s2.character, i2).jumped
  {
  }
}
