# Portfolio site core, modelled in Dafny

This project models the logic of a portfolio web site. Its first part is the contact endpoint:
- a per-address rate limiter;
- the input sanitiser;
- the e-mail pattern;
- the order in which `POST` checks a request and picks a status.

Its second part is the small state machines of the site's 3D world:
- the animation controller's name→action map and its current action;
- the world's role clips, double click, camera tweens and frame loop;
- the character controller's jump budget and movement-state table;
- the click-to-move controller's single move tween and scripted jump;
- the orbit camera's clamps;
- the input manager's key and button bookkeeping;
- the cloud background's list reducers.

Each module holds one source file's state as an immutable datatype and has one pure function per method or handler. Some values come from outside the code: the clock, `Math.random`, the physics engine's answers (ground contact, body velocity), the animation engine's answers (`isRunning`, `finished` events), tween start and completion, the mail transport's outcome and the parsed request body. The model takes all of these as parameters.

| Module | File | Models |
|---|---|---|
| `Common` | common.dfy | `Option`, `Vec3`, `Math.max/min` clamping, `String.prototype.includes` |
| `ContactText` | contact_text.dfy | `sanitizeInput` |
| `EmailPattern` | email_pattern.dfy | `EMAIL_REGEX` |
| `RateLimit` | rate_limit.dfy | `checkRateLimit` |
| `ContactRoute` | contact_route.dfy | `POST`, `GET` |
| `Animation` | animation.dfy | `AnimationController` |
| `World` | world.dfy | `World3D` |
| `CharacterMotion` | character_motion.dfy | `CharacterController` |
| `ClickToMove` | click_to_move.dfy | `ClickToMoveController` |
| `Camera` | camera.dfy | `CameraController` |
| `Input` | input.dfy | `InputManager` |
| `Clouds` | clouds.dfy | `CloudBackground` |

## Model

| member | source | states |
|---|---|---|
| Common.Clamp | src/lib/three-world/CameraController.ts:36 | `Math.max(lo, Math.min(hi, v))` lies in [lo, hi]. It is `v` inside the range, `lo` below it and `hi` above it. |
| ContactText.StripBrackets | src/app/api/contact/route.ts:32 | The result holds no '<' or '>' and is no longer than the input. |
| ContactText.StripBracketsKeepsOthers | src/app/api/contact/route.ts:32 | Every character other than a bracket survives as often as it occurs. Brackets vanish. |
| ContactText.StripBracketsAppend | src/app/api/contact/route.ts:32 | Removing brackets distributes over concatenation, so the order of the kept characters is preserved. |
| ContactText.StripBracketsIdentity | src/app/api/contact/route.ts:32 | Removing brackets leaves a string unchanged exactly when it has none. |
| ContactText.Trim | src/app/api/contact/route.ts:33 | `trim` is a slice of the input. What it cuts off at each end is white space, and the result neither starts nor ends with white space. |
| ContactText.TrimIdentity | src/app/api/contact/route.ts:33 | A string that neither starts nor ends with white space is its own trim. |
| ContactText.Truncate | src/app/api/contact/route.ts:34 | `slice(0, n)` is the prefix of length min(\|s\|, n). |
| ContactText.Sanitize | src/app/api/contact/route.ts:30-35 | The result is bracket-free, at most 5000 characters long and does not start with white space. It is a contiguous piece of the bracket-free text, starting at its first non-space character. When the trimmed text fits in 5000 characters, the result is exactly that text; otherwise it is exactly its first 5000 characters. |
| ContactText.SanitizeUnwrapsTag | src/app/api/contact/route.ts:30-35 | Sanitising `"<" + inner + ">"` gives `inner` back when `inner` is clean, so `"<script>"` becomes `"script"`. |
| ContactText.SanitizeFixedPoint | src/app/api/contact/route.ts:30-35 | Sanitising leaves a string unchanged exactly when it has no bracket, no surrounding white space and at most 5000 characters. |
| EmailPattern.MatchesIffShaped | src/app/api/contact/route.ts:5 | The pattern read literally (non-empty runs of `[^\s@]` around '@' and '.') accepts exactly the strings with no white space, exactly one '@', a non-empty local part, and a '.' in the domain with text on both sides. |
| EmailPattern.CheckEmail | src/app/api/contact/route.ts:5 | A single left-to-right scan accepts exactly the strings the pattern matches. |
| RateLimit.CheckRateLimit | src/app/api/contact/route.ts:11-27 | Only the caller's entry is written. An absent entry, or one whose window has strictly passed, is allowed and restarts at count 1 with a window of 60000 ms. Within a live window a request is allowed iff fewer than 3 were counted. An allowed request raises the count by one and keeps the window end. A refusal leaves the whole table unchanged. |
| RateLimit.CheckRateLimitIsolated | src/app/api/contact/route.ts:13-16 | The decision and new entry for an address depend on that address's entry alone. Every other address's entry is neither added, removed nor changed. |
| RateLimit.Replay | src/app/api/contact/route.ts:11-27 | The fold of the rate check over a run of requests from one address, on which the window lemmas below are stated; its own contract only bounds the allowed count by the number of requests. |
| RateLimit.ReplayWithinWindow | src/app/api/contact/route.ts:20-26 | While every request falls inside a live window, exactly min(requests, headroom) are allowed, and the window end does not move. |
| RateLimit.AtMostThreePerWindow | src/app/api/contact/route.ts:15-26 | Whatever the table held, at most 3 of the requests falling inside the window in force after the first one are allowed. |
| RateLimit.FourthRequestRefused | src/app/api/contact/route.ts:15-26 | From a fresh or expired entry, four requests within one minute: three are allowed and the fourth is refused. |
| ContactRoute.ClientAddress | src/app/api/contact/route.ts:40 | The rate-limit key is `x-forwarded-for` when non-empty, else `x-real-ip` when non-empty, else `"unknown"`; it is never empty. |
| ContactRoute.Caught | src/app/api/contact/route.ts:153-169 | A caught exception gives 503 exactly when it is an `Error` whose message contains "Invalid login", and 500 otherwise. A 503 carries the authentication-failure text and a 500 the generic send-failure text. |
| ContactRoute.FieldProblem | src/app/api/contact/route.ts:53-81 | The field checks report no problem exactly when the form is valid. Valid means: name and content present, name at most 100 characters, content at most 5000, and any e-mail given matches the pattern. |
| ContactRoute.Compose | src/app/api/contact/route.ts:84-143 | Name, e-mail and content are the sanitised fields, and the e-mail is empty when none was given. Each is bracket-free and at most 5000 characters. The sender is `EMAIL_USER` and the subject is the fixed prefix followed by the sanitised name. A reply-to is set exactly when the sanitised e-mail is non-empty, and it equals that e-mail. The recipient is `EMAIL_TO` or the fixed default. |
| ContactRoute.Post | src/app/api/contact/route.ts:37-171 | The rate table always advances. The status is one of 200/400/429/500/503. 429 comes iff the limiter refused. 400 comes iff the limiter allowed, the body parsed and the form is invalid, and it carries the first failing check's message. 200 comes iff the request was allowed, the form is valid, credentials are set and delivery succeeded. An unparsable body, and a verify or send that threw, get the `catch` block's answer for the thrown value. A valid form without credentials gets 503 "not configured". A mail is attempted exactly for a valid, configured request whose verify did not throw, and it is the composed one. |
| ContactRoute.Get | src/app/api/contact/route.ts:174-179 | `GET` always answers 405 "Method not allowed". |
| ContactRoute.RateCheckComesFirst | src/app/api/contact/route.ts:43-48 | Once the limiter refuses, the outcome is 429 whatever the body, environment or transport. |
| ContactRoute.ValidationPrecedence | src/app/api/contact/route.ts:53-95 | The 400 message follows the check order: required fields, then name length, then content length, then e-mail format. Only a valid form reaches the 503 for missing credentials. |
| ContactRoute.TrimKeepsText | src/app/api/contact/route.ts:33 | A string with a non-space character is not trimmed to nothing. |
| ContactRoute.ValidEmailGetsReplyTo | src/app/api/contact/route.ts:76-143 | A valid form with an e-mail always gets a reply-to header. The given e-mail has a non-space character, so its trimmed text is non-empty and so is the sanitised e-mail. |
| ContactRoute.SanitizedReplyToMayNotMatch | src/app/api/contact/route.ts:76-143 | The pattern is checked on the raw address but the sanitised one is sent: `"<@<.<"` passes, becomes `"@."`, and that does not match. |
| Animation.FindSpec | src/lib/three-world/AnimationController.ts:138-140 | `get` finds a name exactly when the map holds it, and then returns the action stored under it (exact, case-sensitive). |
| Animation.HasAnimation | src/lib/three-world/AnimationController.ts:138-140 | A name is known exactly when it is among the map's keys. |
| Animation.Put | src/lib/three-world/AnimationController.ts:30 | `set` grows the map by at most one entry. Every position holds either the new binding or the old entry that was there. |
| Animation.PutFind | src/lib/three-world/AnimationController.ts:30 | After `set`, `get` of that name gives the new action, and `get` of every other name is unchanged. |
| Animation.PutNames | src/lib/three-world/AnimationController.ts:28-32 | `set` keeps the key order, and a new name is appended at the end. |
| Animation.Names | src/lib/three-world/AnimationController.ts:159-161 | `getAnimationNames` lists every entry's name in insertion order. |
| Animation.NameOf | src/lib/three-world/AnimationController.ts:148-153 | The name found for an action is one bound to it. None means no entry holds that action. |
| Animation.LastIndex | src/lib/three-world/AnimationController.ts:28-32 | Index of the last clip with a given name; none when no clip has it. |
| Animation.Register | src/lib/three-world/AnimationController.ts:28-32 | Registration hands out one fresh action per clip and leaves the current action and listeners alone. |
| Animation.SetupAnimations | src/lib/three-world/AnimationController.ts:25-33 | A new mixer with no listeners; the current action stays. One fresh action per clip, and each name is bound to the action of the last clip that carries it, while names no clip carries keep their binding. |
| Animation.Create | src/lib/three-world/AnimationController.ts:14-20 | A mixer exactly when clips are given, nothing current, no listeners. Each clip name is bound to the action of its last clip and no other name is bound. |
| Animation.RegisterLookup | src/lib/three-world/AnimationController.ts:25-33 | After `setupAnimations`, each name is bound to the action of the last clip carrying it, so a later clip of the same name replaces an earlier one. Names no clip carries keep their binding. |
| Animation.PutValid | src/lib/three-world/AnimationController.ts:30 | Binding a fresh action keeps names distinct, actions distinct and all actions handed out. |
| Animation.RegisterValid | src/lib/three-world/AnimationController.ts:25-33 | Registering clips keeps the controller's invariant. |
| Animation.SetupValid | src/lib/three-world/AnimationController.ts:25-33 | `setupAnimations` on a valid controller yields a valid one. |
| Animation.PlayAnimation | src/lib/three-world/AnimationController.ts:38-63 | Success iff the name is registered; an unknown name changes nothing. On success the named action is current. The action restarts exactly when it was not already current. A restart fades out the previous current action, if any; no other call fades anything out. |
| Animation.PlayAnimationOnce | src/lib/three-world/AnimationController.ts:75-108 | Success iff the name is registered. There is no already-current short cut: a known name always restarts and becomes current, and the old current action is faded out. A listener for that action is added exactly when a callback is given and a mixer exists. Nothing else changes, the mixer and the map included. |
| Animation.Waiting | src/lib/three-world/AnimationController.ts:98-103 | The callbacks that fire are exactly those of listeners waiting for the finished action. |
| Animation.NotWaiting | src/lib/three-world/AnimationController.ts:100 | The listeners that stay are exactly those waiting for another action; together with the waiting ones they account for every listener, one for one. |
| Animation.MixerFinished | src/lib/three-world/AnimationController.ts:97-105 | A `finished` event runs exactly the callbacks waiting for its action, one run per registration in registration order, and removes those listeners; nothing else changes. |
| Animation.WaitingAppend | src/lib/three-world/AnimationController.ts:97-105 | The callbacks fired for listeners registered in two batches are those of the first batch, then those of the second. |
| Animation.NotWaitingAppend | src/lib/three-world/AnimationController.ts:97-105 | The listeners that stay keep their registration order across batches. |
| Animation.FiresPerRegistration | src/lib/three-world/AnimationController.ts:97-105 | A callback registered twice for one action runs twice when that action finishes. |
| Animation.StopAnimation | src/lib/three-world/AnimationController.ts:123-133 | Success iff the name is registered; an unknown name changes nothing. On success, current is cleared exactly when it was that name's action; otherwise it is kept. Nothing else changes. |
| Animation.StopAllAnimations | src/lib/three-world/AnimationController.ts:113-118 | Afterwards there is no current animation; the map and listeners stay. |
| Animation.Dispose | src/lib/three-world/AnimationController.ts:182-187 | Afterwards there is no current animation and no mixer or listener. `hasAnimation` is false for every name and `getAnimationNames` is empty. |
| Animation.CurrentAnimationName | src/lib/three-world/AnimationController.ts:145-154 | The map walk returns undefined without a current action, and otherwise the name of the first entry holding it. |
| Animation.NameOfFind | src/lib/three-world/AnimationController.ts:138-154 | With distinct names and actions, the action a name is bound to leads back to that name. |
| Animation.PlayThenCurrentName | src/lib/three-world/AnimationController.ts:58-154 | After a successful `playAnimation(n)`, `getCurrentAnimationName()` is `n`. |
| Animation.PlayIdempotent | src/lib/three-world/AnimationController.ts:50-52 | Playing the same name again changes nothing and restarts nothing. |
| Animation.OnceCallbackFiresOnce | src/lib/three-world/AnimationController.ts:97-105 | The `onComplete` of `playAnimationOnce` fires on its own action's first `finished` event, never on another action's, and never a second time. |
| World.RoleOfKeyword | src/lib/three-world/World3D.ts:562-588 | A name selects a role exactly when its lower-case form is that role's word, so case does not matter and nothing else selects a role. |
| World.RoleOf | src/lib/three-world/World3D.ts:562-588 | A selected role's word is the lower-cased name; when no role is selected, the lower-cased name is no role's word. |
| World.FirstMatch | src/lib/three-world/World3D.ts:185-212 | `find` returns the first clip in load order whose lower-cased name contains the word; none when no clip does. |
| World.FoundRoles | src/lib/three-world/World3D.ts:185-246 | Each of the six roles is bound to its first matching clip, and a role no clip matches is unbound. |
| World.Load | src/lib/three-world/World3D.ts:181-256 | A mixer exists iff the model has clips. Roles are found as above. The clip started is the sad pose if found, else idle, else none, and it is not recorded as current. |
| World.PlayCharacterAnimation | src/lib/three-world/World3D.ts:552-636 | Success iff there is a mixer and the lower-cased name selects a role that was found. A failed call changes nothing. On success the role's action becomes current. It restarts unless it was current and still running. A restarted one-shot role other than idle adds a finish handler for its action. |
| World.CountOf | src/lib/three-world/World3D.ts:622-633 | Number of handlers waiting for an action; zero exactly when none waits. |
| World.Without | src/lib/three-world/World3D.ts:625 | Exactly the handlers for other actions remain, and exactly as many as there were minus those for the action. |
| World.MixerFinished | src/lib/three-world/World3D.ts:623-631 | A finish event removes every handler for its action and keeps the others in order, each other action with exactly as many handlers as before. Each removed handler schedules one return to idle. |
| World.WithoutAppend | src/lib/three-world/World3D.ts:622-633 | Removing one action's handlers from two batches of registrations keeps each batch's other handlers, in order. |
| World.WithoutKeepsCounts | src/lib/three-world/World3D.ts:622-633 | Every other action keeps exactly as many handlers, so the returns to idle its later finish schedules are unchanged. |
| World.ReturnToIdle | src/lib/three-world/World3D.ts:627-629 | The delayed return succeeds iff there is a mixer and an idle clip was found, and then makes the idle action current. Only the current action can change: no finish handler is added, and mixer, roles and initial clip stay. A failed return changes nothing. |
| World.OneShotReturnsToIdle | src/lib/three-world/World3D.ts:622-633 | A one-shot role leaves one handler. Its finish event schedules exactly one return to idle and a second finish schedules none. The return makes the idle clip current. |
| World.CountOfAppend | src/lib/three-world/World3D.ts:632 | Adding handlers adds their counts. |
| World.PlayIgnoresCase | src/lib/three-world/World3D.ts:562 | The result depends on the name only through its lower-case form. |
| World.HandleClick | src/lib/three-world/World3D.ts:351-386 | Without controller or ground, nothing happens. A click less than 300 ms after the remembered one is a jump and clears the remembered time. Any other click remembers its time and moves to the ground point hit, at height 2, only when the ray hit. |
| World.NoJumpAfterJump | src/lib/three-world/World3D.ts:358-363 | Clearing the click time after a jump means the next click (once the clock reads 300 ms or more) is not a jump. |
| World.TripleClickJumpsOnce | src/lib/three-world/World3D.ts:352-384 | Three rapid clicks: a move, then one jump, then no second jump. |
| World.AdjustCamera | src/lib/three-world/World3D.ts:458-543 | The group is replaced by one tween per target given, with the given duration or 1000: the position tween first when a position is given, the look-at tween last when a look-at point is given. Each tween heads for its own target. The completion wrapper is only on the look-at tween, or on the position tween when there is no look-at. |
| World.AdjustCameraCallsBackOnce | src/lib/three-world/World3D.ts:473-543 | Whatever the group held, exactly one tween carries the wrapper when a target is given, and none otherwise. The caller's callback runs once on completion, and never for a move with no target. |
| World.Frame | src/lib/three-world/World3D.ts:317-334 | A stopped loop renders nothing and requests nothing; a running one renders one frame and requests the next. |
| World.Start | src/lib/three-world/World3D.ts:336-341 | Afterwards the loop runs. It is a no-op while running, and otherwise runs one frame. |
| World.Stop | src/lib/three-world/World3D.ts:343-349 | Afterwards the loop is not running and no frame is requested. |
| World.ScheduledWhileRunning | src/lib/three-world/World3D.ts:317-349 | Through any sequence of starts, stops and frames, a frame is requested exactly while the loop runs. |
| World.NothingAfterStop | src/lib/three-world/World3D.ts:318 | After `stop`, any number of frame callbacks render nothing. |
| World.StartIdempotent | src/lib/three-world/World3D.ts:337 | Starting twice is starting once. |
| CharacterMotion.Create | src/lib/three-world/CharacterController.ts:52-97 | The jump budget starts full at `maxJumps` (default 2). The character starts idle and not on the ground, at the given position or (0, 2, 0), with 'Idle' asked of a fresh animation controller. |
| CharacterMotion.CheckGroundContact | src/lib/three-world/CharacterController.ts:152-167 | Landing refills the budget. Leaving the ground with a full budget costs one jump. Otherwise the budget is unchanged. 0 ≤ remaining ≤ maxJumps is preserved. |
| CharacterMotion.Jump | src/lib/three-world/CharacterController.ts:172-183 | A no-op with an empty budget. Otherwise it spends one jump, leaves the ground and sets the vertical velocity to 5 with horizontal velocity kept. It preserves the budget bounds. |
| CharacterMotion.NextState | src/lib/three-world/CharacterController.ts:188-205 | Each state holds exactly under its condition. Airborne: Jumping when vy > 0.5, else Falling. Grounded with horizontal speed > 0.1: Running with Shift, else Walking. Otherwise: Idle. |
| CharacterMotion.UpdateAnimation | src/lib/three-world/CharacterController.ts:210-233 | Only the current action of the animation controller can change. Nothing happens without a mixer or when the state's clip is missing. Otherwise the state's clip ('Idle', 'Fast_Run' or 'Jump') becomes current. |
| CharacterMotion.AnimationFollowsState | src/lib/three-world/CharacterController.ts:210-233 | When the state's clip exists, the current animation's name afterwards is that clip. |
| CharacterMotion.SetPosition | src/lib/three-world/CharacterController.ts:245-250 | The character is placed, and both its movement and physics velocities are zeroed. |
| CharacterMotion.Update | src/lib/three-world/CharacterController.ts:102-147 | A jump happens iff Space is held and the budget after the ground check is positive; it leaves the character Jumping at jump speed, off the ground. Without a jump the character is on the ground iff the ray hit. Horizontal velocity comes from the movement controller and the vertical one from the body. The mesh is placed at the body's position. The state follows the state table on the resulting ground flag, speed and vertical velocity, and the animation is the one that state asks for. The budget falls by exactly the jump taken and stays within bounds. The jump limit stays. |
| CharacterMotion.AirJumpsBounded | src/lib/three-world/CharacterController.ts:152-183 | While the ground ray never hits, the jumps taken plus the jumps left never exceed the budget held at the start. |
| CharacterMotion.AtMostMaxJumpsInAir | src/lib/three-world/CharacterController.ts:152-183 | Between landings, at most `maxJumps` jumps are taken. |
| CharacterMotion.DoubleJump | src/lib/three-world/CharacterController.ts:172-183 | With the default budget, from the ground one can jump and then jump again in the air, but not a third time. |
| ClickToMove.PlayIdle | src/lib/three-world/ClickToMoveController.ts:90-96 | 'idle' becomes current when it exists, otherwise nothing changes. Only the current action can change. |
| ClickToMove.PlayMove | src/lib/three-world/ClickToMoveController.ts:125-130 | 'run' becomes current when it exists. Otherwise 'walk' does when it exists. Otherwise nothing changes. Only the current action can change. |
| ClickToMove.Create | src/lib/three-world/ClickToMoveController.ts:53-85 | Defaults are move speed 100, jump force 8 and gravity 20. The character and the body start at the given position or (0, 2, 0), with the body at rest. The controller starts idle, not moving, not jumping, with an empty tween group, and with 'idle' played on the new animation controller. |
| ClickToMove.MoveTo | src/lib/three-world/ClickToMoveController.ts:101-138 | Any existing tween is dropped, and one new tween becomes current for x and z only, lasting distance × moveSpeed. The character is moving. Only the group, the current tween and the moving flag change: position, state, jump, settings, body and animation stay. At most one tween is kept. |
| ClickToMove.IndexOf | src/lib/three-world/ClickToMoveController.ts:120 | Locates a tween in the group by identity; none when it was removed. |
| ClickToMove.TweenStarted | src/lib/three-world/ClickToMoveController.ts:123-131 | A tween's start callback runs once. It sets state Moving, plays run, else walk, and marks that tween started, with its goal and duration kept. Nothing else changes. A removed tween's start does nothing. |
| ClickToMove.TweenCompleted | src/lib/three-world/ClickToMoveController.ts:132-136 | The tween reaching its end puts x and z at its goal with y kept. Exactly that tween leaves the group, the rest keep their order, movement stops, the state is Idle and idle plays. The jump, the current tween, the settings and the body stay. A removed tween never completes. |
| ClickToMove.Jump | src/lib/three-world/ClickToMoveController.ts:143-155 | A jump starts at `jumpForce` only when not jumping and within 0.1 of the ground height; otherwise nothing changes. On a jump 'Jump' becomes current when it exists; otherwise the animation is untouched. Only the current action of the animation controller can change. |
| ClickToMove.NoJumpInAir | src/lib/three-world/ClickToMoveController.ts:145 | A second jump while the first is in the air does nothing. |
| ClickToMove.Update | src/lib/three-world/ClickToMoveController.ts:160-198 | Gravity slows a jump and the height follows. At or below the ground height the character snaps to it, stops jumping and resumes run/walk if moving, else idle. The body always ends at the character with zero velocity. Only the height, the jump fields, the animation and the body change: x, z, state, group, moving flag and settings stay. |
| ClickToMove.LandingAllowsNextJump | src/lib/three-world/ClickToMoveController.ts:143-180 | A step that reaches the ground lands the character where it may jump again. |
| ClickToMove.Dispose | src/lib/three-world/ClickToMoveController.ts:260-267 | The tween group is emptied and the animation controller disposed. |
| ClickToMove.AtMostOneTween | src/lib/three-world/ClickToMoveController.ts:101-137 | Through any clicks, tween events, jumps and frames, the group holds at most the one current tween, and the character is moving exactly while it is there. |
| Camera.InitialInBounds | src/lib/three-world/CameraController.ts:8-17 | The initial distance 12.5 and pitch π/4 are within their clamps. |
| Camera.Zoom | src/lib/three-world/CameraController.ts:31-39 | The distance moves by 2·delta, clamped to [2, 30], and nothing else changes. |
| Camera.Rotate | src/lib/three-world/CameraController.ts:41-50 | `theta` turns by −0.005·dx unbounded. `phi` moves by 0.005·dy clamped to [0.1, π/2 − 0.1]. Distance, pan and target are unchanged. |
| Camera.SetDistance | src/lib/three-world/CameraController.ts:100-102 | The distance becomes the given one clamped to [2, 30], and nothing else changes. |
| Camera.ResetRotation | src/lib/three-world/CameraController.ts:104-107 | The angles return to 0 and π/4; distance, pan and target stay. |
| Camera.ResetPan | src/lib/three-world/CameraController.ts:109-111 | The pan offset is zeroed and nothing else changes. |
| Camera.Reset | src/lib/three-world/CameraController.ts:113-118 | The target moves to `p` and the angles and pan return to their initial values, while the distance stays. |
| Camera.OperationsKeepBounds | src/lib/three-world/CameraController.ts:31-118 | Every operation keeps distance in [2, 30] and pitch in [0.1, π/2 − 0.1]. |
| Camera.ZoomUndo | src/lib/three-world/CameraController.ts:31-36 | Zooming back undoes a zoom that hit no bound. |
| Camera.RotateUndo | src/lib/three-world/CameraController.ts:41-47 | Rotating back undoes a rotation whose pitch hit no bound. |
| Camera.SetDistanceIdempotent | src/lib/three-world/CameraController.ts:100-102 | Setting a distance twice is setting it once, and setting the current distance changes nothing. |
| Camera.ResetIsBothResets | src/lib/three-world/CameraController.ts:104-118 | Resetting at the current target is a rotation reset followed by a pan reset. |
| Camera.ZoomSaturates | src/lib/three-world/CameraController.ts:31-36 | A large enough zoom reaches a bound and further zoom in that direction stays there. |
| Input.KeyDown | src/lib/three-world/InputManager.ts:30-33 | The code reads as held and every other code is unchanged. Shift follows the event. |
| Input.KeyUp | src/lib/three-world/InputManager.ts:35-38 | The code reads as released and every other code is unchanged. Shift follows the event. |
| Input.IsKeyPressed | src/lib/three-world/InputManager.ts:88-90 | A code never seen reads as not pressed. |
| Input.PressedIffLastPress | src/lib/three-world/InputManager.ts:30-38 | After any run of key events, a code reads as held iff its last event was a keydown; a code with no event in the run reads as before. Shift follows the last event. |
| Input.NothingPressedInitially | src/lib/three-world/InputManager.ts:88-90 | A code never seen reads as not pressed. |
| Input.KeyUpUndoesKeyDown | src/lib/three-world/InputManager.ts:30-38 | A press and release of one code leaves every other code as it was, and that one released. |
| Input.MovementAxes | src/lib/three-world/InputManager.ts:96-103 | Each axis is in {−1, 0, 1}. z is +1 exactly when W/ArrowUp is held without S/ArrowDown, and −1 the other way round. x is +1 exactly when A/ArrowLeft is held without D/ArrowRight, and −1 the other way round. |
| Input.OppositeKeysCancel | src/lib/three-world/InputManager.ts:96-103 | Holding both keys of each axis gives (0, 0). |
| Input.MouseMove | src/lib/three-world/InputManager.ts:40-58 | The movement is stored only while the pointer is locked. The drag becomes the step from the last position only while the right or middle button is held. The last position always follows the pointer. |
| Input.MouseDown | src/lib/three-world/InputManager.ts:60-71 | Button 0, 1 or 2 sets its own flag, and only that one. The last position becomes the press position. |
| Input.MouseUp | src/lib/three-world/InputManager.ts:73-82 | Button 0, 1 or 2 clears its own flag, and the drag is zeroed whatever the button. |
| Input.PointerLockChange | src/lib/three-world/InputManager.ts:84-86 | Only the lock flag changes. |
| Input.TakeMouseDelta | src/lib/three-world/InputManager.ts:108-112 | Returns the stored movement and resets it to zero. |
| Input.TakeMouseDrag | src/lib/three-world/InputManager.ts:118-122 | Returns the stored drag and resets it to zero. |
| Input.SecondReadIsZero | src/lib/three-world/InputManager.ts:108-122 | An immediate second read returns zero. |
| Input.LeftDragDoesNotDrag | src/lib/three-world/InputManager.ts:50-53 | With only the left button held, moving leaves the drag as it was. |
| Input.RightDragMeasuresStep | src/lib/three-world/InputManager.ts:50-81 | A right press then a move drags by exactly the step from the press position, and releasing zeroes it. |
| Clouds.Generate | src/components/CloudBackground.tsx:55-67 | A new cloud takes the counter's id and the requested repeat. Image, height, size, duration and delay are the drawn ones. |
| Clouds.GenerateAll | src/components/CloudBackground.tsx:164-185 | Clouds generated in a row take consecutive ids from the counter. |
| Clouds.MoreCloud | src/components/CloudBackground.tsx:70-72 | Exactly one new repeating cloud is appended, with the existing clouds unchanged and in order. Ids keep increasing. |
| Clouds.LessCloud | src/components/CloudBackground.tsx:75-82 | A non-empty list loses exactly its last cloud; an empty one stays empty. |
| Clouds.LessUndoesMore | src/components/CloudBackground.tsx:70-82 | Adding a cloud then removing one gives the list back. |
| Clouds.IncreaseSpeed | src/components/CloudBackground.tsx:85-92 | Length, order and every field but the duration stay. Each duration is at least both 5 and 0.8·d and equals one of them, so it is exactly max(5, 0.8·d). |
| Clouds.DecreaseSpeed | src/components/CloudBackground.tsx:95-102 | Length, order and every field but the duration stay. Each duration is at most both 60 and 1.25·d and equals one of them, so it is exactly min(60, 1.25·d). |
| Clouds.DecreaseUndoesIncrease | src/components/CloudBackground.tsx:85-102 | For durations in [6.25, 48], speeding up then slowing down restores the list. |
| Clouds.IncreaseUndoesDecrease | src/components/CloudBackground.tsx:85-102 | For durations in [5, 48], slowing down then speeding up restores the list. |
| Clouds.SpeedButtonsKeepRange | src/components/CloudBackground.tsx:85-102 | Durations in [5, 60] stay there under both buttons. |
| Clouds.Burst | src/components/CloudBackground.tsx:134-161 | The opening burst replaces the list with 50 one-time clouds. They have consecutive ids and their draws' image, height, size and delay, and the i-th runs at 0.1 + (i/50)·0.9 of its drawn duration. |
| Clouds.OnceClouds | src/components/CloudBackground.tsx:180 | Exactly the one-time clouds are kept. |
| Clouds.OnceCloudsAppend | src/components/CloudBackground.tsx:180 | Filtering distributes over concatenation, so the one-time clouds keep their relative order. |
| Clouds.AddRepeating | src/components/CloudBackground.tsx:164-170 | `maxClouds` repeating clouds are appended after the existing ones, which stay in order. The k-th new cloud is the repeating cloud generated from the k-th draw with id counter + k. |
| Clouds.Rebuild | src/components/CloudBackground.tsx:176-190 | For a non-empty list: the one-time clouds in their order, then exactly `maxClouds` new repeating ones. An empty list is left alone. |
| Clouds.OnceCloudsIncrease | src/components/CloudBackground.tsx:180 | Keeping only the one-time clouds keeps ids increasing and below the counter. |
| Clouds.RebuildKeepsIdsIncreasing | src/components/CloudBackground.tsx:55-190 | The generating reducers keep ids strictly increasing along the list and below the counter, so the list's keys stay unique. |
| Clouds.RebuildKeepsBurst | src/components/CloudBackground.tsx:134-190 | After the burst and the delayed add, a rebuild keeps the 50 burst clouds exactly and swaps the repeating clouds for the new number of them. |

## Left out

- Mail delivery: the nodemailer transport, the HTML and text bodies and `Date.toLocaleString` are not modelled. The transport's outcome is a parameter, and only the header fields of the mail are composed.
- `console` logging everywhere is not modelled.
- String lengths are counted in Unicode code points, not the UTF-16 code units JavaScript counts.
- JSON body fields that are neither strings nor missing are not modelled. A non-string name or content would reach `.length` or `.replace` on a non-string.
- World.Lower: lower-cases ASCII letters only, not the full Unicode mapping of `toLowerCase`.
- Rate-limit entries are never evicted, as in the route itself, and its process-local lifetime across serverless instances is not modelled.
- Floating point: camera angles, velocities, positions and durations are exact reals. `Math.PI` is its decimal value, and NaN and infinities are not modelled.
- `CameraController.update`, `pan` and `getForwardDirection` are not modelled, because they use trigonometry and camera world-direction queries.
- MovementController.ts and PhysicsBody.ts are not part of this model. The movement controller's horizontal velocity and speed, and the body's velocity, position and ground ray, are inputs of each character frame.
- CharacterMotion.Update: the horizontal speed is an input rather than the length of the movement velocity, which needs a square root.
- ClickToMove.MoveTo: the distance to the target is an input (a square root), and turning the mesh to face the target is not modelled.
- Tween interpolation and easing are not modelled. Tweens are records with explicit start and completion events, and camera tweens carry their goal only.
- `setTimeout` delays are not modelled: the return to idle after 500 ms, the burst's follow-up after 3 s, and the deferred rebuild.
- Fade times and loop styles of animation actions are not modelled, nor are the mixer's clock, `AnimationController.update` or `getMixer`.
- Listener registration (`addEventListener`, pointer lock requests, resize handling) is not modelled. The handler bodies are functions of the event's data.
- The intro camera tween in `loadCharacter` is not modelled, nor are `switchToAgreeAnimation`/`switchToIdleAnimation` and `onCameraZoomComplete`.
- The normalised pointer position of `handleMouseMove` and the `normalize()` of `getMovementInput` are not modelled; the axes are stated before normalisation.
- Getters (`getPosition`, `getState`, `getMesh`, `getBody`, `isShiftPressed`, …) are not modelled, nor is `ClickToMoveController.setPosition`, which only moves the mesh and body.
- `CharacterController.dispose` (body removal and a velocity reset) is not modelled.
- `Math.random` in cloud generation is not modelled. Each new cloud's image, height, size, duration and delay arrive as a `Look`, and the burst's horizontal start offset is dropped.
- Clouds.Burst: requires exactly 50 draws, the number the component's loop makes.
- React rendering, opacity and scale effects, and strict-mode double effects are not modelled.
- CharacterMotion.CheckGroundContact: the budget invariant is stated for `maxJumps` ≥ 1. With `maxJumps` = 0, leaving the ground sets the budget to −1, which the jump guard then ignores.
