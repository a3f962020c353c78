/** The bookkeeping of `World3D`: which loaded clip plays which role, the
    character animation it switches between, the double-click rule of its
    click handler, the camera tween group `adjustCamera` replaces, and the
    running flag of its frame loop. A clip's action is identified by the
    clip's index in load order (the mixer hands out one action per clip);
    the engine's answers (does the action still run, did the ray hit the
    ground, the clock) are parameters. */
module World {
  import opened Common

  // ---------------------------------------------------------------------
  // Role clips

  /** `toLowerCase` on ASCII letters; other characters are kept. */
  function LowerChar(c: char): char {
    if 'A' <= c <= 'Z' then (c as int + 32) as char else c
  }

  function Lower(s: string): (r: string)
    ensures |r| == |s|
  {
    seq(|s|, i requires 0 <= i < |s| => LowerChar(s[i]))
  }

  /** The six animations the world knows by name. */
  datatype Role = Sneak | Sad | Agree | Idle | Run | Walk

  /** The lower-case word that both finds a role's clip and names the role
      in `playCharacterAnimation`. */
  function Keyword(r: Role): string {
    match r
    case Sneak => "sneak"
    case Sad => "sad"
    case Agree => "agree"
    case Idle => "idle"
    case Run => "run"
    case Walk => "walk"
  }

  /** The `switch` of `playCharacterAnimation` on the lower-cased name. */
  function RoleOf(name: string): (r: Option<Role>)
    ensures r.Some? ==> Lower(name) == Keyword(r.value)
    ensures r.None? ==> forall role :: Lower(name) != Keyword(role)
  {
    var n := Lower(name);
    if n == "run" then Some(Run)
    else if n == "walk" then Some(Walk)
    else if n == "idle" then Some(Idle)
    else if n == "agree" then Some(Agree)
    else if n == "sneak" then Some(Sneak)
    else if n == "sad" then Some(Sad)
    else None
  }

  /** A name selects a role exactly when its lower-case form is the role's
      keyword, so case does not matter and nothing else selects a role. */
  lemma RoleOfKeyword(name: string, role: Role)
    ensures RoleOf(name) == Some(role) <==> Lower(name) == Keyword(role)
  {
  }

  /** `clips.find(anim => anim.name.toLowerCase().includes(word))`, as the
      index of the clip found: the first clip in load order whose lower-cased
      name contains `word`. */
  function FirstMatch(clips: seq<string>, word: string): (r: Option<nat>)
    ensures r.Some? ==> && r.value < |clips|
                        && Contains(Lower(clips[r.value]), word)
                        && forall j :: 0 <= j < r.value ==> !Contains(Lower(clips[j]), word)
    ensures r.None? ==> forall j :: 0 <= j < |clips| ==> !Contains(Lower(clips[j]), word)
  {
    if clips == [] then None
    else if Contains(Lower(clips[0]), word) then Some(0)
    else match FirstMatch(clips[1..], word)
      case None => None
      case Some(k) => Some(k + 1)
  }

  const AllRoles: set<Role> := {Sneak, Sad, Agree, Idle, Run, Walk}

  /** The character's animation state: whether a mixer exists, the clip bound
      to each role found, the clip started at load time, the current action
      of `playCharacterAnimation`, and the actions whose one-shot finish
      handlers still wait. */
  datatype Cast = Cast(
    hasMixer: bool,
    roles: map<Role, nat>,
    initial: Option<nat>,
    current: Option<nat>,
    handlers: seq<nat>)

  /** The clip `find` returns for a role's keyword. */
  function Found(clips: seq<string>, role: Role): Option<nat> {
    FirstMatch(clips, Keyword(role))
  }

  /** Each role bound to the first clip whose lower-cased name contains its
      keyword; a role no clip matches stays unbound. */
  function FoundRoles(clips: seq<string>): (m: map<Role, nat>)
    ensures forall role :: role in m <==> FirstMatch(clips, Keyword(role)).Some?
    ensures forall role :: role in m ==> m[role] == FirstMatch(clips, Keyword(role)).value
  {
    var m := map role | role in AllRoles && Found(clips, role).Some? :: Found(clips, role).value;
    assert forall role :: Found(clips, role) == FirstMatch(clips, Keyword(role));
    assert forall role :: role in AllRoles by {
      forall role ensures role in AllRoles {
        assert role.Sneak? || role.Sad? || role.Agree? || role.Idle? || role.Run? || role.Walk?;
      }
    }
    m
  }

  /** The animation part of `loadCharacter`: a mixer only when the model has
      clips, the roles found, and the sad pose (else idle, else nothing)
      started. The clip started here is not recorded as current. */
  function Load(clips: seq<string>): (c: Cast)
    ensures c.hasMixer <==> |clips| > 0
    ensures c.roles == if |clips| == 0 then map[] else FoundRoles(clips)
    ensures c.initial == if |clips| == 0 then None
                         else if FirstMatch(clips, "sad").Some? then FirstMatch(clips, "sad")
                         else FirstMatch(clips, "idle")
    ensures c.current.None? && c.handlers == []
  {
    if |clips| == 0 then Cast(false, map[], None, None, [])
    else
      var roles := FoundRoles(clips);
      assert Keyword(Sad) == "sad" && Keyword(Idle) == "idle";
      var initial := if Sad in roles then Some(roles[Sad])
                     else if Idle in roles then Some(roles[Idle])
                     else None;
      Cast(true, roles, initial, None, [])
  }

  datatype CastPlay = CastPlay(cast: Cast, ok: bool, restarted: bool)

  /** `playCharacterAnimation(name, loop)`, where `targetRunning` is the
      engine's `isRunning()` for the target action. */
  function PlayCharacterAnimation(c: Cast, name: string, loop: bool, targetRunning: bool): (r: CastPlay)
    ensures r.ok <==> c.hasMixer && RoleOf(name).Some? && RoleOf(name).value in c.roles
    ensures !c.hasMixer || RoleOf(name).None? || RoleOf(name).value !in c.roles ==>
              !r.ok && !r.restarted && r.cast == c
    ensures r.ok ==> r.cast.current == Some(c.roles[RoleOf(name).value])
    ensures r.ok && !r.restarted ==> r.cast == c
    ensures r.ok ==> (r.restarted <==> !(c.current == r.cast.current && targetRunning))
    ensures r.restarted ==> r.ok && r.cast == c.(current := r.cast.current, handlers := r.cast.handlers)
    ensures r.restarted ==>
              r.cast.handlers == c.handlers + if !loop && RoleOf(name) != Some(Idle)
                                              then [c.roles[RoleOf(name).value]] else []
  {
    if !c.hasMixer then CastPlay(c, false, false)
    else match RoleOf(name)
      case None => CastPlay(c, false, false)
      case Some(role) =>
        if role !in c.roles then CastPlay(c, false, false)
        else
          var target := c.roles[role];
          if c.current == Some(target) && targetRunning then CastPlay(c, true, false)
          else
            var hs := if !loop && role != Idle then c.handlers + [target] else c.handlers;
            CastPlay(c.(current := Some(target), handlers := hs), true, true)
  }

  /** How many of `hs` wait for action `a`. */
  function CountOf(hs: seq<nat>, a: nat): (n: nat)
    ensures n <= |hs|
    ensures n == 0 <==> a !in hs
  {
    if hs == [] then 0 else (if hs[0] == a then 1 else 0) + CountOf(hs[1..], a)
  }

  /** The handlers not waiting for `a`, in registration order. */
  function Without(hs: seq<nat>, a: nat): (r: seq<nat>)
    ensures forall x :: x in r <==> x in hs && x != a
    ensures |r| + CountOf(hs, a) == |hs|
  {
    if hs == [] then [] else (if hs[0] == a then [] else [hs[0]]) + Without(hs[1..], a)
  }

  datatype CastFinished = CastFinished(cast: Cast, idleReturns: nat)

  /** The mixer's `finished` event for action `a`: each one-shot handler
      waiting for `a` removes itself and schedules a return to looping idle
      (the 500 ms delay is not modelled; the return is a later call of
      `ReturnToIdle`). */
  function MixerFinished(c: Cast, a: nat): (r: CastFinished)
    ensures r.cast == c.(handlers := r.cast.handlers)
    ensures a !in r.cast.handlers
    ensures forall x :: x in r.cast.handlers <==> x in c.handlers && x != a
    ensures r.idleReturns == CountOf(c.handlers, a)
    ensures r.cast.handlers == Without(c.handlers, a)
    ensures forall b :: b != a ==> CountOf(r.cast.handlers, b) == CountOf(c.handlers, b)
  {
    forall b | b != a ensures CountOf(Without(c.handlers, a), b) == CountOf(c.handlers, b) {
      WithoutKeepsCounts(c.handlers, a, b);
    }
    CastFinished(c.(handlers := Without(c.handlers, a)), CountOf(c.handlers, a))
  }

  /** The scheduled `playCharacterAnimation('idle', true)`. */
  function ReturnToIdle(c: Cast, idleRunning: bool): (r: CastPlay)
    ensures r.ok <==> c.hasMixer && Idle in c.roles
    ensures r.ok ==> r.cast.current == Some(c.roles[Idle])
    ensures !r.ok ==> r.cast == c
    ensures r.cast == c.(current := r.cast.current)
  {
    assert RoleOf("idle") == Some(Idle) by {
      assert Lower("idle") == "idle";
    }
    PlayCharacterAnimation(c, "idle", true, idleRunning)
  }

  /** A one-shot role other than idle leaves exactly one handler for its
      action (when none waited before); that action's finish event runs it
      once and removes it, a second finish event runs nothing, and the
      return it schedules makes the idle clip current again. */
  lemma OneShotReturnsToIdle(c: Cast, name: string, running: bool, idleRunning: bool)
    requires c.hasMixer && RoleOf(name).Some? && RoleOf(name).value in c.roles
    requires RoleOf(name) != Some(Idle) && Idle in c.roles
    requires !(c.current == Some(c.roles[RoleOf(name).value]) && running)
    requires c.roles[RoleOf(name).value] !in c.handlers
    ensures var a := c.roles[RoleOf(name).value];
            var p := PlayCharacterAnimation(c, name, false, running);
            var f := MixerFinished(p.cast, a);
            && p.ok && p.restarted
            && f.idleReturns == 1
            && MixerFinished(f.cast, a).idleReturns == 0
            && ReturnToIdle(f.cast, idleRunning).ok
            && ReturnToIdle(f.cast, idleRunning).cast.current == Some(c.roles[Idle])
  {
    var a := c.roles[RoleOf(name).value];
    var p := PlayCharacterAnimation(c, name, false, running);
    assert p.cast.handlers == c.handlers + [a];
    CountOfAppend(c.handlers, [a], a);
    assert CountOf([a], a) == 1;
    assert RoleOf("idle") == Some(Idle) by {
      assert Lower("idle") == "idle";
    }
  }

  /** Removing one action's handlers keeps the others in order. */
  lemma {:induction false} WithoutAppend(x: seq<nat>, y: seq<nat>, a: nat)
    ensures Without(x + y, a) == Without(x, a) + Without(y, a)
  {
    if x != [] {
      assert (x + y)[1..] == x[1..] + y;
      WithoutAppend(x[1..], y, a);
    } else {
      assert x + y == y;
    }
  }

  /** Every other action keeps exactly as many handlers as it had. */
  lemma {:induction false} WithoutKeepsCounts(hs: seq<nat>, a: nat, b: nat)
    requires b != a
    ensures CountOf(Without(hs, a), b) == CountOf(hs, b)
  {
    if hs != [] {
      WithoutKeepsCounts(hs[1..], a, b);
      var head := if hs[0] == a then [] else [hs[0]];
      CountOfAppend(head, Without(hs[1..], a), b);
      if head != [] { assert head[1..] == []; }
    }
  }

  lemma {:induction false} CountOfAppend(x: seq<nat>, y: seq<nat>, a: nat)
    ensures CountOf(x + y, a) == CountOf(x, a) + CountOf(y, a)
  {
    if x != [] {
      assert (x + y)[1..] == x[1..] + y;
      CountOfAppend(x[1..], y, a);
    } else {
      assert x + y == y;
    }
  }

  /** The result depends on the name only through its lower-case form. */
  lemma PlayIgnoresCase(c: Cast, n1: string, n2: string, loop: bool, running: bool)
    requires Lower(n1) == Lower(n2)
    ensures PlayCharacterAnimation(c, n1, loop, running) == PlayCharacterAnimation(c, n2, loop, running)
  {
  }

  // ---------------------------------------------------------------------
  // Double click

  /** Two clicks closer than this many milliseconds make a double click. */
  const DoubleClickDelay: int := 300

  /** Height every click target is lifted to. */
  const TargetHeight: real := 2.0

  datatype ClickAction = Ignore | Jump | MoveTo(target: Vec3)

  datatype Click = Click(lastClickTime: int, action: ClickAction)

  /** `handleClick` at clock `now`: nothing without a character controller
      or a ground; a jump (and a cleared click time) on a double click;
      otherwise the click time is remembered and the character is sent to
      the ground point hit, if any, at height 2. */
  function HandleClick(lastClickTime: int, now: int, hasController: bool, hasGround: bool,
                       hit: Option<Vec3>): (r: Click)
    ensures !hasController || !hasGround ==> r == Click(lastClickTime, Ignore)
    ensures hasController && hasGround ==>
              (r.action.Jump? <==> now - lastClickTime < DoubleClickDelay)
    ensures r.action.Jump? ==> r.lastClickTime == 0
    ensures hasController && hasGround && !r.action.Jump? ==> r.lastClickTime == now
    ensures r.action.MoveTo? <==>
              hasController && hasGround && now - lastClickTime >= DoubleClickDelay && hit.Some?
    ensures r.action.MoveTo? ==> r.action.target == hit.value.(y := TargetHeight)
  {
    if !hasController || !hasGround then Click(lastClickTime, Ignore)
    else if now - lastClickTime < DoubleClickDelay then Click(0, Jump)
    else Click(now, if hit.Some? then MoveTo(hit.value.(y := TargetHeight)) else Ignore)
  }

  /** Once the clock reads at least 300 ms, a click right after a jump is
      never a jump itself. */
  lemma NoJumpAfterJump(last: int, t1: int, t2: int, hit1: Option<Vec3>, hit2: Option<Vec3>)
    requires t2 >= DoubleClickDelay
    requires HandleClick(last, t1, true, true, hit1).action.Jump?
    ensures !HandleClick(HandleClick(last, t1, true, true, hit1).lastClickTime, t2, true, true, hit2).action.Jump?
  {
  }

  /** Three clicks, each less than 300 ms after the one before and the first
      more than that after the last remembered click: one move request
      (when the ground is hit), then one jump, then no second jump. */
  lemma TripleClickJumpsOnce(last: int, t1: int, t2: int, t3: int, h1: Option<Vec3>,
                             h2: Option<Vec3>, h3: Option<Vec3>)
    requires t1 - last >= DoubleClickDelay
    requires t1 <= t2 < t1 + DoubleClickDelay && t2 <= t3 < t2 + DoubleClickDelay
    requires t3 >= DoubleClickDelay
    ensures var c1 := HandleClick(last, t1, true, true, h1);
            var c2 := HandleClick(c1.lastClickTime, t2, true, true, h2);
            var c3 := HandleClick(c2.lastClickTime, t3, true, true, h3);
            && !c1.action.Jump? && (h1.Some? <==> c1.action.MoveTo?)
            && c2.action.Jump?
            && !c3.action.Jump?
  {
    var c1 := HandleClick(last, t1, true, true, h1);
    var c2 := HandleClick(c1.lastClickTime, t2, true, true, h2);
    NoJumpAfterJump(c1.lastClickTime, t2, t3, h2, h3);
  }

  // ---------------------------------------------------------------------
  // Camera tweens

  /** Default `adjustCamera` duration, in milliseconds. */
  const DefaultDuration: real := 1000.0

  datatype Target = CameraPosition | LookAtPoint

  /** What a tween does when it completes: nothing, or run the wrapper that
      calls the caller's callback (if one was given). */
  datatype Hook = NoHook | Calls(callback: Option<nat>)

  datatype Tween = Tween(target: Target, goal: Vec3, duration: real, hook: Hook)

  datatype CameraMove = CameraMove(position: Option<Vec3>, lookAt: Option<Vec3>,
                                   duration: Option<real>, onComplete: Option<nat>)

  /** `adjustCamera(options)`: the tween group is emptied, then one tween is
      started per target given, and the completion wrapper goes on the
      look-at tween when there is one, else on the position tween. */
  function AdjustCamera(group: seq<Tween>, m: CameraMove): (r: seq<Tween>)
    ensures |r| == (if m.position.Some? then 1 else 0) + (if m.lookAt.Some? then 1 else 0)
    ensures m.position.Some? ==> r[0].target == CameraPosition
    ensures m.lookAt.Some? ==> r[|r| - 1].target == LookAtPoint
    ensures forall i :: 0 <= i < |r| ==>
              r[i].duration == (if m.duration.Some? then m.duration.value else DefaultDuration)
    ensures forall i :: 0 <= i < |r| && r[i].target == CameraPosition ==>
              m.position.Some? && r[i].goal == m.position.value
    ensures forall i :: 0 <= i < |r| && r[i].target == LookAtPoint ==>
              m.lookAt.Some? && r[i].goal == m.lookAt.value
    ensures forall i :: 0 <= i < |r| && r[i].hook.Calls? ==>
              r[i].hook.callback == m.onComplete
              && (r[i].target == LookAtPoint || m.lookAt.None?)
  {
    var d := if m.duration.Some? then m.duration.value else DefaultDuration;
    var pos := if m.position.Some? then
                 [Tween(CameraPosition, m.position.value, d,
                        if m.lookAt.Some? then NoHook else Calls(m.onComplete))]
               else [];
    var look := if m.lookAt.Some? then [Tween(LookAtPoint, m.lookAt.value, d, Calls(m.onComplete))]
                else [];
    pos + look
  }

  /** Callbacks run when every tween in the group completes. */
  function Completions(group: seq<Tween>): (r: seq<nat>)
  {
    if group == [] then []
    else (match group[0].hook
          case Calls(Some(cb)) => [cb]
          case _ => []) + Completions(group[1..])
  }

  /** Number of tweens in the group that carry the completion wrapper. */
  function Hooked(group: seq<Tween>): (n: nat)
  {
    if group == [] then 0 else (if group[0].hook.Calls? then 1 else 0) + Hooked(group[1..])
  }

  /** Whatever the group held before, `adjustCamera` leaves exactly one
      completion wrapper when it is given a target and none when it is
      given none; so the caller's callback runs exactly once when the move
      completes, and never for a move with no target. */
  lemma AdjustCameraCallsBackOnce(group: seq<Tween>, m: CameraMove)
    ensures var r := AdjustCamera(group, m);
            && Hooked(r) == (if m.position.Some? || m.lookAt.Some? then 1 else 0)
            && Completions(r) == if (m.position.Some? || m.lookAt.Some?) && m.onComplete.Some?
                                 then [m.onComplete.value] else []
  {
    var r := AdjustCamera(group, m);
    if |r| == 2 {
      var t := r[1..];
      assert t[1..] == [];
      assert Hooked(t) == (if t[0].hook.Calls? then 1 else 0) + Hooked(t[1..]);
      assert Completions(t) == (match t[0].hook case Calls(Some(cb)) => [cb] case _ => []) + Completions(t[1..]);
    } else if |r| == 1 {
      assert r[1..] == [];
    }
  }

  // ---------------------------------------------------------------------
  // Frame loop

  /** `isRunning`, whether an animation frame is requested, and how many
      frames have been rendered. */
  datatype Loop = Loop(running: bool, scheduled: bool, frames: nat)

  const Stopped := Loop(false, false, 0)

  /** The body of `update`: nothing once stopped; otherwise one frame is
      rendered and the next one requested. */
  function Frame(l: Loop): (r: Loop)
    ensures !l.running ==> r == l.(scheduled := false)
    ensures l.running ==> r.running && r.scheduled && r.frames == l.frames + 1
  {
    if !l.running then l.(scheduled := false) else Loop(true, true, l.frames + 1)
  }

  /** `start`: a no-op while running; otherwise the flag is set and `update`
      runs once, which requests the next frame. */
  function Start(l: Loop): (r: Loop)
    ensures r.running
    ensures l.running ==> r == l
    ensures !l.running ==> r.scheduled && r.frames == l.frames + 1
  {
    if l.running then l else Frame(l.(running := true))
  }

  /** `stop`: the flag is cleared and the requested frame cancelled. */
  function Stop(l: Loop): (r: Loop)
    ensures !r.running && !r.scheduled && r.frames == l.frames
  {
    l.(running := false, scheduled := false)
  }

  /** A frame is requested exactly while the loop runs, from the initial
      state on, whatever sequence of starts, stops and frames follows. */
  datatype LoopEvent = StartEvent | StopEvent | FrameEvent

  function Apply(l: Loop, e: LoopEvent): Loop {
    match e
    case StartEvent => Start(l)
    case StopEvent => Stop(l)
    case FrameEvent => Frame(l)
  }

  function Replay(l: Loop, es: seq<LoopEvent>): Loop
    decreases |es|
  {
    if es == [] then l else Replay(Apply(l, es[0]), es[1..])
  }

  lemma {:induction false} ScheduledWhileRunning(l: Loop, es: seq<LoopEvent>)
    requires l.scheduled == l.running
    ensures Replay(l, es).scheduled == Replay(l, es).running
    decreases |es|
  {
    if es != [] {
      ScheduledWhileRunning(Apply(l, es[0]), es[1..]);
    }
  }

  /** After `stop`, no number of frame callbacks renders anything. */
  lemma {:induction false} NothingAfterStop(l: Loop, n: nat)
    ensures Replay(Stop(l), seq(n, _ => FrameEvent)) == Stop(l)
  {
    if n > 0 {
      var es := seq(n, _ => FrameEvent);
      assert es[0] == FrameEvent;
      assert es[1..] == seq(n - 1, _ => FrameEvent);
      NothingAfterStop(l, n - 1);
    }
  }

  /** Starting twice is starting once. */
  lemma StartIdempotent(l: Loop)
    ensures Start(Start(l)) == Start(l)
  {
  }
}
