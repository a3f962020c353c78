/** `AnimationController`: a name→action map (a JavaScript `Map`, so an
    insertion-ordered list of entries with distinct names), at most one
    current action, and the `finished` listeners that `playAnimationOnce`
    leaves on the mixer. Actions are identified by the number the mixer
    gave them; every clip registered gets a fresh one. Fade weights, loop
    modes and the mixer's clock are not modelled. */
module Animation {
  import opened Common

  type ActionId = nat

  datatype Entry = Entry(name: string, action: ActionId)

  /** A `finished` listener: the action it waits for and the callback it
      runs, identified by a caller-chosen token. */
  datatype Listener = Listener(action: ActionId, callback: nat)

  datatype Controller = Controller(
    hasMixer: bool,
    entries: seq<Entry>,
    current: Option<ActionId>,
    listeners: seq<Listener>,
    nextAction: ActionId)

  /** The state right after construction without clips. */
  const Empty := Controller(false, [], None, [], 0)

  /** Reachable states: names are distinct, every action was handed out by
      the mixer and belongs to one name, and entries imply a mixer. */
  ghost predicate Valid(c: Controller) {
    && (forall i, j :: 0 <= i < j < |c.entries| ==> c.entries[i].name != c.entries[j].name)
    && (forall i, j :: 0 <= i < j < |c.entries| ==> c.entries[i].action != c.entries[j].action)
    && (forall i :: 0 <= i < |c.entries| ==> c.entries[i].action < c.nextAction)
    && (c.entries != [] ==> c.hasMixer)
  }

  /** `Map.prototype.get`: exact, case-sensitive lookup. */
  function Find(entries: seq<Entry>, name: string): (r: Option<ActionId>)
  {
    if entries == [] then None
    else if entries[0].name == name then Some(entries[0].action)
    else Find(entries[1..], name)
  }

  /** `get` finds exactly the names the map holds, with their actions. */
  lemma {:induction false} FindSpec(entries: seq<Entry>, name: string)
    ensures Find(entries, name).Some? <==> name in Names(entries)
    ensures Find(entries, name).Some? ==> Entry(name, Find(entries, name).value) in entries
  {
    if entries != [] {
      FindSpec(entries[1..], name);
      assert Names(entries) == [entries[0].name] + Names(entries[1..]);
    }
  }

  /** `Map.prototype.set`: replaces the action of an existing name in place,
      or appends a new entry; every other entry keeps its place. */
  function Put(entries: seq<Entry>, name: string, a: ActionId): (r: seq<Entry>)
    ensures |r| == |entries| || |r| == |entries| + 1
    ensures forall i :: 0 <= i < |r| ==> r[i] == Entry(name, a) || (i < |entries| && r[i] == entries[i])
  {
    if entries == [] then [Entry(name, a)]
    else if entries[0].name == name then [Entry(name, a)] + entries[1..]
    else
      var t := Put(entries[1..], name, a);
      assert forall i :: 0 < i <= |t| ==> ([entries[0]] + t)[i] == t[i - 1];
      [entries[0]] + t
  }

  /** After `set`, `get` of the name set gives the new action and `get` of
      every other name is unchanged. */
  lemma {:induction false} PutFind(entries: seq<Entry>, name: string, a: ActionId, n: string)
    ensures Find(Put(entries, name, a), n) == if n == name then Some(a) else Find(entries, n)
  {
    if entries != [] && entries[0].name != name {
      PutFind(entries[1..], name, a, n);
    }
  }

  /** `set` keeps the key order, appending a name it did not hold. */
  lemma {:induction false} PutNames(entries: seq<Entry>, name: string, a: ActionId)
    ensures Names(Put(entries, name, a)) ==
            if Find(entries, name).Some? then Names(entries) else Names(entries) + [name]
  {
    if entries != [] && entries[0].name != name {
      PutNames(entries[1..], name, a);
      assert Put(entries, name, a) == [entries[0]] + Put(entries[1..], name, a);
      NamesAppend([entries[0]], Put(entries[1..], name, a));
      NamesAppend([entries[0]], entries[1..]);
      assert entries == [entries[0]] + entries[1..];
    } else if entries != [] {
      NamesAppend([Entry(name, a)], entries[1..]);
      NamesAppend([entries[0]], entries[1..]);
      assert entries == [entries[0]] + entries[1..];
    }
  }

  lemma NamesAppend(x: seq<Entry>, y: seq<Entry>)
    ensures Names(x + y) == Names(x) + Names(y)
  {
    var l, r := Names(x + y), Names(x) + Names(y);
    assert |l| == |r|;
    forall i | 0 <= i < |l| ensures l[i] == r[i] {
      if i < |x| { assert (x + y)[i] == x[i]; } else { assert (x + y)[i] == y[i - |x|]; }
    }
  }

  /** `getAnimationNames`: the names in insertion order. */
  function Names(entries: seq<Entry>): (r: seq<string>)
    ensures |r| == |entries|
    ensures forall i :: 0 <= i < |r| ==> r[i] == entries[i].name
  {
    if entries == [] then [] else [entries[0].name] + Names(entries[1..])
  }

  /** The name of the first entry holding action `a`. */
  function NameOf(entries: seq<Entry>, a: ActionId): (r: Option<string>)
    ensures r.None? <==> forall i :: 0 <= i < |entries| ==> entries[i].action != a
    ensures r.Some? ==> exists i :: 0 <= i < |entries| && entries[i] == Entry(r.value, a)
  {
    if entries == [] then None
    else if entries[0].action == a then Some(entries[0].name)
    else
      var r := NameOf(entries[1..], a);
      assert forall i :: 0 < i < |entries| ==> entries[i] == entries[1..][i - 1];
      r
  }

  /** `hasAnimation`. */
  predicate HasAnimation(c: Controller, name: string)
    ensures HasAnimation(c, name) <==> name in Names(c.entries)
  {
    FindSpec(c.entries, name);
    Find(c.entries, name).Some?
  }

  /** Registers clips in order, each under its name with a fresh action. */
  function Register(c: Controller, clips: seq<string>): (r: Controller)
    ensures r.hasMixer == c.hasMixer && r.current == c.current && r.listeners == c.listeners
    ensures r.nextAction == c.nextAction + |clips|
    decreases |clips|
  {
    if clips == [] then c
    else
      var p := Register(c, clips[..|clips| - 1]);
      p.(entries := Put(p.entries, clips[|clips| - 1], p.nextAction), nextAction := p.nextAction + 1)
  }

  /** `setupAnimations(clips)`: a new mixer (so listeners left on the old
      one can no longer fire), then every clip registered in order. */
  function SetupAnimations(c: Controller, clips: seq<string>): (r: Controller)
    ensures r.hasMixer && r.listeners == [] && r.current == c.current
    ensures r.nextAction == c.nextAction + |clips|
    ensures forall name :: Find(r.entries, name) == Bound(c, clips, name)
  {
    var m := c.(hasMixer := true, listeners := []);
    RegisterLookupAll(m, clips);
    Register(m, clips)
  }

  /** The constructor: a mixer exactly when clips are given, nothing
      current, and each clip name bound to the action of its last clip. */
  function Create(clips: seq<string>): (r: Controller)
    ensures r.hasMixer <==> |clips| > 0
    ensures r.current.None? && r.listeners == [] && r.nextAction == |clips|
    ensures forall name :: Find(r.entries, name) == Bound(Empty, clips, name)
  {
    if |clips| > 0 then SetupAnimations(Empty, clips)
    else
      assert forall name :: LastIndex(clips, name).None?;
      Empty
  }

  /** What a name is bound to after registering `clips` on `c`: the action
      of the last clip carrying it, else whatever it had before. */
  function Bound(c: Controller, clips: seq<string>, name: string): Option<ActionId> {
    match LastIndex(clips, name)
    case Some(k) => Some(c.nextAction + k)
    case None => Find(c.entries, name)
  }

  lemma RegisterLookupAll(c: Controller, clips: seq<string>)
    ensures forall name :: Find(Register(c, clips).entries, name) == Bound(c, clips, name)
  {
    forall name ensures Find(Register(c, clips).entries, name) == Bound(c, clips, name) {
      RegisterLookup(c, clips, name);
    }
  }

  /** Index of the last clip named `name`, when there is one. */
  function LastIndex(clips: seq<string>, name: string): (r: Option<nat>)
    ensures r.Some? ==> r.value < |clips| && clips[r.value] == name
                        && forall k :: r.value < k < |clips| ==> clips[k] != name
    ensures r.None? ==> forall k :: 0 <= k < |clips| ==> clips[k] != name
  {
    if clips == [] then None
    else if clips[|clips| - 1] == name then Some(|clips| - 1)
    else LastIndex(clips[..|clips| - 1], name)
  }

  /** After registration a name is bound to the action of the last clip that
      carries it (a later clip of the same name replaces the earlier one),
      and a name no clip carries keeps what it had. */
  lemma {:induction false} RegisterLookup(c: Controller, clips: seq<string>, name: string)
    ensures var r := Register(c, clips);
            match LastIndex(clips, name)
            case Some(k) => Find(r.entries, name) == Some(c.nextAction + k)
            case None => Find(r.entries, name) == Find(c.entries, name)
    decreases |clips|
  {
    if clips != [] {
      var init := clips[..|clips| - 1];
      var last := clips[|clips| - 1];
      RegisterLookup(c, init, name);
      var p := Register(c, init);
      assert Register(c, clips) == p.(entries := Put(p.entries, last, p.nextAction), nextAction := p.nextAction + 1);
      PutFind(p.entries, last, p.nextAction, name);
      assert LastIndex(clips, name) == if last == name then Some(|clips| - 1) else LastIndex(init, name);
    }
  }

  /** Binding a fresh action keeps a valid map valid. */
  lemma PutValid(entries: seq<Entry>, name: string, a: ActionId)
    requires forall i, j :: 0 <= i < j < |entries| ==> entries[i].name != entries[j].name
    requires forall i, j :: 0 <= i < j < |entries| ==> entries[i].action != entries[j].action
    requires forall i :: 0 <= i < |entries| ==> entries[i].action < a
    ensures var r := Put(entries, name, a);
            && (forall i, j :: 0 <= i < j < |r| ==> r[i].name != r[j].name)
            && (forall i, j :: 0 <= i < j < |r| ==> r[i].action != r[j].action)
            && (forall i :: 0 <= i < |r| ==> r[i].action <= a)
  {
    var r := Put(entries, name, a);
    PutNames(entries, name, a);
    FindSpec(entries, name);
    var ns, old_ns := Names(r), Names(entries);
    assert forall i, j :: 0 <= i < j < |old_ns| ==> old_ns[i] != old_ns[j];
    forall i, j | 0 <= i < j < |r| ensures r[i].name != r[j].name {
      assert r[i].name == ns[i] && r[j].name == ns[j];
      if j >= |old_ns| {
        assert ns[j] == name && name !in old_ns;
        assert ns[i] == old_ns[i];
      }
    }
  }

  /** Registering keeps names distinct and actions distinct and fresh. */
  lemma {:induction false} RegisterValid(c: Controller, clips: seq<string>)
    requires Valid(c) && c.hasMixer
    ensures Valid(Register(c, clips))
    decreases |clips|
  {
    if clips != [] {
      var p := Register(c, clips[..|clips| - 1]);
      RegisterValid(c, clips[..|clips| - 1]);
      PutValid(p.entries, clips[|clips| - 1], p.nextAction);
      assert Register(c, clips) == p.(entries := Put(p.entries, clips[|clips| - 1], p.nextAction),
                                      nextAction := p.nextAction + 1);
    }
  }

  /** The controller `setupAnimations` builds from a valid one is valid. */
  lemma SetupValid(c: Controller, clips: seq<string>)
    requires Valid(c)
    ensures Valid(SetupAnimations(c, clips))
  {
    RegisterValid(c.(hasMixer := true, listeners := []), clips);
  }

  /** Result of a play or stop call. `restarted` says whether the action was
      reset, faded in and played; `fadedOut` is the action faded out in
      favour of it. */
  datatype Played = Played(controller: Controller, ok: bool, restarted: bool,
                           fadedOut: Option<ActionId>)

  /** `playAnimation(name)` (and `fadeToAnimation`, which only forwards). */
  function PlayAnimation(c: Controller, name: string): (r: Played)
    ensures r.ok <==> HasAnimation(c, name)
    ensures !r.ok ==> r.controller == c && !r.restarted
    ensures r.ok ==> r.controller == c.(current := Find(c.entries, name))
    ensures r.restarted <==> r.ok && c.current != Find(c.entries, name)
    ensures r.fadedOut == if r.restarted then c.current else None
  {
    match Find(c.entries, name)
    case None => Played(c, false, false, None)
    case Some(a) =>
      if c.current == Some(a) then Played(c, true, false, None)
      else Played(c.(current := Some(a)), true, true, c.current)
  }

  /** `playAnimationOnce(name, fadeTime, onComplete)`: no already-current
      short cut, and a listener for the played action when a callback is
      given and a mixer exists. */
  function PlayAnimationOnce(c: Controller, name: string, onComplete: Option<nat>): (r: Played)
    ensures r.ok <==> HasAnimation(c, name)
    ensures !r.ok ==> r.controller == c && !r.restarted
    ensures r.ok ==> && r.restarted && r.fadedOut == c.current
                     && r.controller.current == Find(c.entries, name)
                     && r.controller == c.(current := r.controller.current,
                                           listeners := r.controller.listeners)
                     && r.controller.listeners ==
                          c.listeners + if onComplete.Some? && c.hasMixer
                                        then [Listener(Find(c.entries, name).value, onComplete.value)]
                                        else []
  {
    match Find(c.entries, name)
    case None => Played(c, false, false, None)
    case Some(a) =>
      var ls := if onComplete.Some? && c.hasMixer then c.listeners + [Listener(a, onComplete.value)]
                else c.listeners;
      Played(c.(current := Some(a), listeners := ls), true, true, c.current)
  }

  /** Callbacks of the listeners waiting for `a`, in registration order. */
  function Waiting(ls: seq<Listener>, a: ActionId): (r: seq<nat>)
    ensures |r| <= |ls|
    ensures forall cb :: cb in r <==> Listener(a, cb) in ls
  {
    if ls == [] then []
    else (if ls[0].action == a then [ls[0].callback] else []) + Waiting(ls[1..], a)
  }

  /** The listeners not waiting for `a`, in registration order. */
  function NotWaiting(ls: seq<Listener>, a: ActionId): (r: seq<Listener>)
    ensures forall l :: l in r <==> l in ls && l.action != a
    ensures |r| + |Waiting(ls, a)| == |ls|
  {
    if ls == [] then []
    else (if ls[0].action != a then [ls[0]] else []) + NotWaiting(ls[1..], a)
  }

  datatype Finished = Finished(controller: Controller, fired: seq<nat>)

  /** The mixer's `finished` event for action `a`: every listener waiting
      for `a` removes itself and runs its callback; the others stay. */
  function MixerFinished(c: Controller, a: ActionId): (r: Finished)
    ensures r.controller == c.(listeners := NotWaiting(c.listeners, a))
    ensures forall cb :: cb in r.fired <==> Listener(a, cb) in c.listeners
    ensures r.fired == Waiting(c.listeners, a)
  {
    Finished(c.(listeners := NotWaiting(c.listeners, a)), Waiting(c.listeners, a))
  }

  /** Listeners registered later fire later: the callbacks of a
      concatenation are those of each part, in order. */
  lemma {:induction false} WaitingAppend(x: seq<Listener>, y: seq<Listener>, a: ActionId)
    ensures Waiting(x + y, a) == Waiting(x, a) + Waiting(y, a)
  {
    if x != [] {
      assert (x + y)[1..] == x[1..] + y;
      WaitingAppend(x[1..], y, a);
    } else {
      assert x + y == y;
    }
  }

  /** The listeners that stay keep their registration order, one for one. */
  lemma {:induction false} NotWaitingAppend(x: seq<Listener>, y: seq<Listener>, a: ActionId)
    ensures NotWaiting(x + y, a) == NotWaiting(x, a) + NotWaiting(y, a)
  {
    if x != [] {
      assert (x + y)[1..] == x[1..] + y;
      NotWaitingAppend(x[1..], y, a);
    } else {
      assert x + y == y;
    }
  }

  /** A callback registered twice for the same action fires twice. */
  lemma FiresPerRegistration(c: Controller, a: ActionId, cb: nat)
    ensures MixerFinished(c.(listeners := [Listener(a, cb), Listener(a, cb)]), a).fired == [cb, cb]
  {
  }

  /** `stopAnimation(name)`. */
  function StopAnimation(c: Controller, name: string): (r: Played)
    ensures r.ok <==> HasAnimation(c, name)
    ensures !r.ok ==> r.controller == c
    ensures r.ok ==> r.controller == c.(current := r.controller.current)
    ensures r.ok ==> (r.controller.current.None? <==> c.current.None? || c.current == Find(c.entries, name))
    ensures r.controller.current.Some? ==> r.controller.current == c.current
  {
    match Find(c.entries, name)
    case None => Played(c, false, false, None)
    case Some(a) =>
      Played(if c.current == Some(a) then c.(current := None) else c, true, false, None)
  }

  /** `stopAllAnimations`. */
  function StopAllAnimations(c: Controller): (r: Controller)
    ensures r.current.None?
    ensures r.entries == c.entries && r.listeners == c.listeners && r.hasMixer == c.hasMixer
  {
    c.(current := None)
  }

  /** `dispose`: everything stopped, the map cleared, the mixer dropped
      (with the listeners on it). */
  function Dispose(c: Controller): (r: Controller)
    ensures r.current.None? && !r.hasMixer && r.listeners == []
    ensures forall n :: !HasAnimation(r, n)
    ensures Names(r.entries) == []
  {
    StopAllAnimations(c).(entries := [], hasMixer := false, listeners := [])
  }

  /** `getCurrentAnimationName`: a walk over the map in insertion order for
      the entry holding the current action. */
  method CurrentAnimationName(c: Controller) returns (r: Option<string>)
    ensures c.current.None? ==> r.None?
    ensures c.current.Some? ==> r == NameOf(c.entries, c.current.value)
  {
    r := None;
    if c.current.None? {
      return;
    }
    var a := c.current.value;
    var i := 0;
    while i < |c.entries|
      invariant 0 <= i <= |c.entries|
      invariant NameOf(c.entries, a) == NameOf(c.entries[i..], a)
    {
      assert c.entries[i..][1..] == c.entries[i + 1..];
      if c.entries[i].action == a {
        return Some(c.entries[i].name);
      }
      i := i + 1;
    }
  }

  /** In a valid controller the action a name is bound to leads back to that
      name. */
  lemma {:induction false} NameOfFind(entries: seq<Entry>, name: string)
    requires forall i, j :: 0 <= i < j < |entries| ==> entries[i].name != entries[j].name
    requires forall i, j :: 0 <= i < j < |entries| ==> entries[i].action != entries[j].action
    requires Find(entries, name).Some?
    ensures NameOf(entries, Find(entries, name).value) == Some(name)
  {
    if entries[0].name != name {
      NameOfFind(entries[1..], name);
      var a := Find(entries, name).value;
      var i :| 0 <= i < |entries| && entries[i] == Entry(name, a);
      assert i != 0;
    }
  }

  /** After a successful `playAnimation(n)` the current animation's name is
      `n`. */
  lemma PlayThenCurrentName(c: Controller, name: string)
    requires Valid(c)
    requires PlayAnimation(c, name).ok
    ensures var c' := PlayAnimation(c, name).controller;
            c'.current.Some? && NameOf(c'.entries, c'.current.value) == Some(name)
  {
    NameOfFind(c.entries, name);
  }

  /** Playing the current animation again changes nothing and restarts
      nothing. */
  lemma PlayIdempotent(c: Controller, name: string)
    ensures var p := PlayAnimation(c, name);
            var q := PlayAnimation(p.controller, name);
            q.controller == p.controller && q.ok == p.ok && !q.restarted
  {
  }

  /** A listener `playAnimationOnce` registered fires on its own action's
      first `finished` event, never on another action's, and never twice. */
  lemma OnceCallbackFiresOnce(c: Controller, name: string, cb: nat, other: ActionId)
    requires c.hasMixer && HasAnimation(c, name)
    requires forall l :: l in c.listeners ==> l.callback != cb
    ensures var a := Find(c.entries, name).value;
            var p := PlayAnimationOnce(c, name, Some(cb)).controller;
            && cb in MixerFinished(p, a).fired
            && cb !in MixerFinished(MixerFinished(p, a).controller, a).fired
            && (other != a ==> cb !in MixerFinished(p, other).fired)
  {
  }
}
