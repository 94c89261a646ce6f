/** What the input method client guarantees over every run. */
module ImeTheorems {
  import opened Basics
  import opened ImeSpec

  // ---------------------------------------------------------------- the compositor's view

  function HeldAfter(held: set<nat>, w: Wire): set<nat> {
    if !w.Key? then held else if w.pressed then held + {w.key} else held - {w.key}
  }

  /** Keys the compositor sees held after these requests. */
  function Held(wire: seq<Wire>): set<nat> {
    if wire == [] then {} else HeldAfter(Held(wire[..|wire| - 1]), wire[|wire| - 1])
  }

  function LastMods(wire: seq<Wire>): Mods {
    if wire == [] then NO_MODS
    else
      match wire[|wire| - 1]
      case Modifiers(mods) => mods
      case _ => LastMods(wire[..|wire| - 1])
  }

  function DoneCount(wire: seq<Wire>): nat {
    if wire == [] then 0
    else DoneCount(wire[..|wire| - 1]) + (if wire[|wire| - 1].DoneReceived? then 1 else 0)
  }

  /** Every commit carries the number of done events received before it. */
  ghost predicate CommitsCurrent(wire: seq<Wire>) {
    forall i :: 0 <= i < |wire| && wire[i].Commit? ==> wire[i].serial == DoneCount(wire[..i]) % UINT32
  }

  lemma Snoc(wire: seq<Wire>, w: Wire)
    ensures Held(wire + [w]) == HeldAfter(Held(wire), w)
    ensures LastMods(wire + [w]) == if w.Modifiers? then w.mods else LastMods(wire)
    ensures DoneCount(wire + [w]) == DoneCount(wire) + if w.DoneReceived? then 1 else 0
    ensures CommitsCurrent(wire) && (w.Commit? ==> w.serial == DoneCount(wire) % UINT32) ==> CommitsCurrent(wire + [w])
  {
    assert (wire + [w])[..|wire|] == wire;
    forall i | 0 <= i < |wire| ensures (wire + [w])[..i] == wire[..i] {
    }
  }

  // ---------------------------------------------------------------- the invariant

  /** Every trackable key the compositor sees held is marked. */
  ghost predicate KeysTracked(s: State) {
    && |s.forwarded| == KEY_COUNT
    && (forall k :: k in Held(s.wire) && k < KEY_COUNT ==> s.forwarded[k])
    && (!s.keymapSet ==> Held(s.wire) == {} && LastMods(s.wire) == NO_MODS)
  }

  ghost predicate ModsCleared(s: State) { s.grab.None? ==> LastMods(s.wire) == NO_MODS }

  ghost predicate GrabFresh(s: State) { s.grab.Some? ==> s.grab.value < s.nextGrab }

  ghost predicate GrabMeansIntent(s: State) {
    s.keyDepth == 0 ==> (s.grab.Some? <==> s.wantGrab && s.current.active)
  }

  ghost predicate SerialRight(s: State) {
    && s.serial == DoneCount(s.wire) % UINT32
    && CommitsCurrent(s.wire)
  }

  ghost predicate Pointers(s: State) {
    && s.heap.safe
    && (forall p :: p in s.heap.live ==> p < s.heap.next)
    && (s.pending.surrounding.Some? ==> s.pending.surrounding.value in s.heap.live)
    && (s.current.surrounding.Some? ==> s.current.surrounding.value in s.heap.live)
    && (s.pending.surrounding.Some? && s.current.surrounding.Some? ==> s.pending.surrounding != s.current.surrounding)
    && (forall p :: p in s.heap.live ==> s.pending.surrounding == Some(p) || s.current.surrounding == Some(p))
  }

  ghost predicate Basic(s: State) {
    && KeysTracked(s)
    && ModsCleared(s)
    && GrabFresh(s)
    && SerialRight(s)
  }

  ghost predicate Inv(s: State) {
    && Basic(s)
    && GrabMeansIntent(s)
    && Pointers(s)
    && s.keyDepth == 0
  }

  // ---------------------------------------------------------------- steps keep it

  lemma SendForwardKeeps(s: State, key: nat, pressed: bool)
    requires Basic(s)
    ensures var s' := SendForward(s, key, pressed);
            && s' == s.(wire := s'.wire) && LastMods(s'.wire) == LastMods(s.wire) && SerialRight(s')
            && DoneCount(s'.wire) == DoneCount(s.wire)
            && Held(s'.wire) == if !s.keymapSet then {} else if pressed then Held(s.wire) + {key} else Held(s.wire) - {key}
  {
    Snoc(s.wire, Key(key, pressed));
  }

  lemma ForwardKeyKeeps(s: State, key: nat, pressed: bool)
    requires Basic(s)
    ensures var s' := ForwardKey(s, key, pressed);
            && Basic(s') && s' == s.(wire := s'.wire, forwarded := s'.forwarded)
            && s'.forwarded == (if key < KEY_COUNT then s.forwarded[key := pressed] else s.forwarded)
            && LastMods(s'.wire) == LastMods(s.wire)
            && Held(s'.wire) == if !s.keymapSet then {} else if pressed then Held(s.wire) + {key} else Held(s.wire) - {key}
  {
    SendForwardKeeps(s, key, pressed);
  }

  lemma {:induction false} ReleaseFromKeeps(s: State, key: nat)
    requires Basic(s) && key <= KEY_COUNT && forall k :: 0 <= k < key ==> !s.forwarded[k]
    ensures var s' := ReleaseFrom(s, key);
            && Basic(s') && s' == s.(wire := s'.wire, forwarded := s'.forwarded)
            && (forall k :: 0 <= k < KEY_COUNT ==> !s'.forwarded[k])
            && LastMods(s'.wire) == LastMods(s.wire)
            && (forall k :: k >= KEY_COUNT ==> (k in Held(s'.wire) <==> k in Held(s.wire)))
    decreases KEY_COUNT - key
  {
    if key < KEY_COUNT {
      if s.forwarded[key] {
        ForwardKeyKeeps(s, key, false);
        ReleaseFromKeeps(ForwardKey(s, key, false), key + 1);
      } else {
        ReleaseFromKeeps(s, key + 1);
      }
    }
  }

  /** Releasing a grab leaves held exactly the keys too large for the shadow array. */
  lemma ReleaseKeeps(s: State)
    requires Basic(s) && s.grab.Some? && s.keyDepth == 0 && !(s.wantGrab && s.current.active)
    ensures var s' := UpdateGrab(s);
            && Basic(s') && s'.grab.None?
            && (forall k :: k in Held(s'.wire) <==> k in Held(s.wire) && k >= KEY_COUNT)
            && (forall k :: 0 <= k < KEY_COUNT ==> !s'.forwarded[k])
            && LastMods(s'.wire) == NO_MODS
            && s' == s.(wire := s'.wire, forwarded := s'.forwarded, grab := None)
  {
    ReleaseFromKeeps(s, 0);
    var r := ReleaseFrom(s, 0);
    Snoc(r.wire, Modifiers(NO_MODS));
    var r' := ReleaseForwardedKeys(s);
    Snoc(r'.wire, ReleaseGrab(s.grab.value));
  }

  lemma UpdateGrabKeeps(s: State)
    requires Basic(s)
    ensures Basic(UpdateGrab(s)) && GrabMeansIntent(UpdateGrab(s))
    ensures var s' := UpdateGrab(s);
            s' == s.(wire := s'.wire, forwarded := s'.forwarded, grab := s'.grab, nextGrab := s'.nextGrab)
    ensures UpdateGrab(s).nextGrab >= s.nextGrab
    ensures UpdateGrab(s).grab == s.grab || UpdateGrab(s).grab.None? || UpdateGrab(s).grab == Some(s.nextGrab)
  {
    if s.keyDepth == 0 {
      if s.wantGrab && s.current.active {
        Snoc(s.wire, GrabKeyboard(s.nextGrab));
      } else if s.grab.Some? {
        ReleaseKeeps(s);
      }
    }
  }

  lemma AppendKeeps(s: State, w: Wire)
    requires Basic(s) && !w.Key? && !w.Modifiers? && !w.DoneReceived?
    requires w.Commit? ==> w.serial == s.serial
    ensures Basic(s.(wire := s.wire + [w])) && Held(s.wire + [w]) == Held(s.wire)
  {
    Snoc(s.wire, w);
  }

  function AppendIf(s: State, sent: bool, w: Wire): State { s.(wire := s.wire + (if sent then [w] else [])) }

  lemma AppendIfKeeps(s: State, sent: bool, w: Wire)
    requires Basic(s) && (w.Preedit? || w.DeleteSurrounding? || w.CommitString?)
    ensures Basic(AppendIf(s, sent, w))
  {
    if sent {
      AppendKeeps(s, w);
    } else {
      assert s.wire + [] == s.wire;
    }
  }

  lemma CommitKeeps(s: State)
    requires Basic(s)
    ensures Basic(s.(wire := s.wire + [Commit(s.serial)]))
  {
    AppendKeeps(s, Commit(s.serial));
  }

  lemma PreeditKeeps(s: State, text: Text, cursor: Cursor)
    requires Basic(s)
    ensures var s' := SendPreedit(s, text, cursor); Basic(s') && s' == s.(wire := s'.wire)
  {
    if s.current.active {
      AppendIfKeeps(s, text != [], Preedit(text, cursor));
      CommitKeeps(AppendIf(s, text != [], Preedit(text, cursor)));
    }
  }

  lemma ReplaceKeeps(s: State, before: nat, after: nat, text: Text)
    requires Basic(s)
    ensures var s' := SendReplace(s, before, after, text); Basic(s') && s' == s.(wire := s'.wire)
  {
    if s.current.active {
      var delete := before > 0 || after > 0;
      AppendIfKeeps(s, delete, DeleteSurrounding(before, after));
      var d := AppendIf(s, delete, DeleteSurrounding(before, after));
      AppendIfKeeps(d, text != [], CommitString(text));
      CommitKeeps(AppendIf(d, text != [], CommitString(text)));
    }
  }

  /** Fields no API call touches. */
  ghost predicate SameDocs(s: State, s': State) {
    && s'.pending == s.pending && s'.current == s.current && s'.heap == s.heap && s'.serial == s.serial
    && s'.keyDepth == s.keyDepth && s'.keymapSet == s.keymapSet
  }

  lemma ActKeeps(s: State, a: Action)
    requires Basic(s) && GrabMeansIntent(s)
    ensures Basic(Act(s, a)) && GrabMeansIntent(Act(s, a)) && SameDocs(s, Act(s, a))
    ensures s.nextGrab <= Act(s, a).nextGrab
    ensures Act(s, a).grab == s.grab || Act(s, a).grab.None? || Act(s, a).grab == Some(s.nextGrab)
    ensures s.keyDepth > 0 ==> Act(s, a).grab == s.grab && Act(s, a).nextGrab == s.nextGrab
  {
    match a
    case DoSetGrab(grab) => UpdateGrabKeeps(s.(wantGrab := grab));
    case DoForward(key, pressed) => ForwardKeyKeeps(s, key, pressed);
    case DoPreedit(text, cursor) => PreeditKeeps(s, text, cursor);
    case DoReplace(before, after, text) => ReplaceKeeps(s, before, after, text);
  }

  /** A grab `g` that is over stays over. */
  ghost predicate Over(s: State, g: nat) { g < s.nextGrab && s.grab != Some(g) }

  /** Callbacks keep everything; while a key callback runs the grab is neither taken nor dropped. */
  lemma {:induction false} ScriptKeeps(s: State, script: seq<Action>)
    requires Basic(s) && GrabMeansIntent(s)
    ensures Basic(ActAll(s, script)) && GrabMeansIntent(ActAll(s, script)) && SameDocs(s, ActAll(s, script))
    ensures s.keyDepth > 0 ==> ActAll(s, script).grab == s.grab && ActAll(s, script).nextGrab == s.nextGrab
    ensures forall g :: Over(s, g) ==> Over(ActAll(s, script), g)
    decreases |script|
  {
    if script != [] {
      ActKeeps(s, script[0]);
      ScriptKeeps(Act(s, script[0]), script[1..]);
    }
  }

  lemma PassKeyKeeps(s: State, key: nat, pressed: bool, consumed: bool)
    requires Basic(s)
    ensures var s' := PassKey(s, key, pressed, consumed);
            && Basic(s') && s' == s.(wire := s'.wire, forwarded := s'.forwarded)
            && (s.keymapSet ==>
                 Held(s'.wire) ==
                 (if pressed then (if consumed then Held(s.wire) else Held(s.wire) + {key})
                  else if key >= KEY_COUNT && consumed then Held(s.wire)
                  else Held(s.wire) - {key}))
  {
    SendForwardKeeps(s, key, pressed);
    ForwardKeyKeeps(s, key, pressed);
  }

  lemma GrabKeyKeeps(s: State, grab: nat, key: nat, pressed: bool, script: seq<Action>, consumed: bool)
    requires Basic(s) && GrabMeansIntent(s) && s.keyDepth == 0
    ensures var s' := GrabKey(s, grab, key, pressed, script, consumed);
            && Basic(s') && GrabMeansIntent(s') && SameDocs(s, s')
            && (forall g :: Over(s, g) ==> Over(s', g))
  {
    if s.grab == Some(grab) {
      var deeper := s.(keyDepth := s.keyDepth + 1);
      ScriptKeeps(deeper, script);
      var answered := ActAll(deeper, script);
      PassKeyKeeps(answered, key, pressed, consumed);
      var passed := PassKey(answered, key, pressed, consumed);
      UpdateGrabKeeps(passed.(keyDepth := s.keyDepth));
      assert forall g :: Over(s, g) ==> Over(deeper, g);
    }
  }

  /** Applying the pending state frees one string, copies one, and reads both as before. */
  lemma ApplyPointers(s: State)
    requires Pointers(s)
    ensures var s' := ApplyPending(s);
            && Pointers(s')
            && Read(s'.heap, s'.current) == Read(s.heap, s.pending)
            && Read(s'.heap, s'.pending) == Read(s.heap, s.pending)
  {
  }

  lemma ApplyBasic(s: State)
    requires Basic(s)
    ensures Basic(ApplyPending(s))
  {
    Snoc(s.wire, DoneReceived);
  }

  lemma DoneKeeps(s: State, script: seq<Action>)
    requires Inv(s)
    ensures Inv(Done(s, script))
    ensures forall g :: Over(s, g) ==> Over(Done(s, script), g)
    ensures Read(Done(s, script).heap, Done(s, script).current) == Read(s.heap, s.pending)
    ensures Read(Done(s, script).heap, Done(s, script).pending) == Read(s.heap, s.pending)
  {
    ApplyPointers(s);
    ApplyBasic(s);
    var applied := ApplyPending(s);
    UpdateGrabKeeps(applied);
    assert forall g :: Over(s, g) ==> Over(applied, g);
    ScriptKeeps(UpdateGrab(applied), script);
  }

  lemma StepKeeps(s: State, e: Event)
    requires Inv(s)
    ensures Inv(Step(s, e))
    ensures forall g :: Over(s, g) ==> Over(Step(s, e), g)
  {
    match e
    case Call(action) => ActKeeps(s, action);
    case GrabKeymapEvent => Snoc(s.wire, Keymap);
    case GrabKeyEvent(grab, key, pressed, script, consumed) => GrabKeyKeeps(s, grab, key, pressed, script, consumed);
    case GrabModifiersEvent(grab, mods) => Snoc(s.wire, Modifiers(mods));
    case ActivateEvent =>
    case DeactivateEvent =>
    case SurroundingEvent(text, cursor) =>
    case ContentTypeEvent(hint, purpose) =>
    case DoneEvent(script) => DoneKeeps(s, script);
  }

  lemma InitHolds(wantGrab: bool, forwarded: seq<bool>)
    requires |forwarded| == 1024
    ensures Inv(Init(wantGrab, forwarded))
  {
  }

  lemma {:induction false} RunKeeps(init: State, events: seq<Event>)
    requires Inv(init)
    ensures Inv(Run(init, events))
    ensures forall g :: Over(init, g) ==> Over(Run(init, events), g)
    decreases |events|
  {
    if events != [] {
      RunKeeps(init, events[..|events| - 1]);
      StepKeeps(Run(init, events[..|events| - 1]), events[|events| - 1]);
    }
  }

  // ---------------------------------------------------------------- the promises

  /** No stuck keys, the grab agrees with intent, and commits carry the right serial, in
      every reachable state. */
  lemma ReachableStates(wantGrab: bool, forwarded: seq<bool>, events: seq<Event>)
    requires |forwarded| == 1024
    ensures var s := Run(Init(wantGrab, forwarded), events);
            && (forall k :: k in Held(s.wire) && k < 1024 ==> k < |s.forwarded| && s.forwarded[k])
            && (s.grab.None? ==> LastMods(s.wire) == NO_MODS)
            && (s.grab.Some? <==> s.wantGrab && s.current.active)
            && CommitsCurrent(s.wire) && s.serial == DoneCount(s.wire) % UINT32
            && s.heap.safe
            && (s.pending.surrounding.Some? && s.current.surrounding.Some? ==> s.pending.surrounding != s.current.surrounding)
            && (forall p :: p in s.heap.live <==> s.pending.surrounding == Some(p) || s.current.surrounding == Some(p))
  {
    InitHolds(wantGrab, forwarded);
    RunKeeps(Init(wantGrab, forwarded), events);
  }

  ghost predicate NothingHeld(wire: seq<Wire>) { Held(wire) == {} }

  ghost predicate OnlyTrackableHeld(wire: seq<Wire>) { forall k :: k in Held(wire) ==> k < 1024 }

  /** When a call drops the grab, no key stays held exactly when none beyond the shadow
      array was; below 1024 none ever does. */
  lemma ReleaseLeavesNoKeyHeld(s: State, grab: bool)
    requires Inv(s) && s.grab.Some? && SetGrab(s, grab).grab.None?
    ensures forall k :: k < 1024 ==> k !in Held(SetGrab(s, grab).wire)
    ensures NothingHeld(SetGrab(s, grab).wire) <==> OnlyTrackableHeld(s.wire)
    ensures LastMods(SetGrab(s, grab).wire) == NO_MODS
  {
    ReleaseKeeps(s.(wantGrab := grab));
    var before, after := Held(s.wire), Held(SetGrab(s, grab).wire);
    assert forall k :: k in after <==> k in before && k >= 1024;
    if after == {} {
      forall k | k in before ensures k < 1024 {
        assert k !in after;
      }
    } else {
      var k :| k in after;
      assert k in before && k >= 1024;
    }
  }

  /** Key 1024 does not fit the shadow array: pressed under a grab, it outlives the grab. */
  lemma LargeKeyStaysHeld(s: State, grab: nat)
    requires Inv(s) && s.grab == Some(grab) && s.keymapSet
    ensures 1024 in Held(SetGrab(GrabKey(s, grab, 1024, true, [], false), false).wire)
  {
    var deeper := s.(keyDepth := s.keyDepth + 1);
    PassKeyKeeps(deeper, 1024, true, false);
    var s1 := GrabKey(s, grab, 1024, true, [], false);
    GrabKeyKeeps(s, grab, 1024, true, [], false);
    ReleaseKeeps(s1.(wantGrab := false));
  }

  lemma UpdateGrabPressesNothing(s: State)
    requires Basic(s)
    ensures forall k :: k in Held(UpdateGrab(s).wire) ==> k in Held(s.wire)
  {
    if s.keyDepth == 0 {
      if s.wantGrab && s.current.active {
        Snoc(s.wire, GrabKeyboard(s.nextGrab));
      } else if s.grab.Some? {
        ReleaseKeeps(s);
      }
    }
  }

  /** A key let go under the grab is up afterwards, whatever its callback did or answered. */
  lemma ReleasedKeyIsUp(s: State, grab: nat, key: nat, script: seq<Action>, consumed: bool)
    requires Inv(s) && s.grab == Some(grab) && s.keymapSet && (key < 1024 || !consumed)
    ensures key !in Held(GrabKey(s, grab, key, false, script, consumed).wire)
  {
    var deeper := s.(keyDepth := s.keyDepth + 1);
    ScriptKeeps(deeper, script);
    var answered := ActAll(deeper, script);
    ScriptKeepsKeymap(deeper, script);
    PassKeyKeeps(answered, key, false, consumed);
    UpdateGrabPressesNothing(PassKey(answered, key, false, consumed).(keyDepth := s.keyDepth));
  }

  lemma {:induction false} ScriptKeepsKeymap(s: State, script: seq<Action>)
    requires Basic(s) && GrabMeansIntent(s)
    ensures ActAll(s, script).keymapSet == s.keymapSet
    decreases |script|
  {
    if script != [] {
      ActKeeps(s, script[0]);
      ActKeepsKeymap(s, script[0]);
      ScriptKeepsKeymap(Act(s, script[0]), script[1..]);
    }
  }

  lemma ActKeepsKeymap(s: State, a: Action)
    requires Basic(s)
    ensures Act(s, a).keymapSet == s.keymapSet
  {
    match a
    case DoSetGrab(grab) => UpdateGrabKeeps(s.(wantGrab := grab));
    case DoForward(key, pressed) => ForwardKeyKeeps(s, key, pressed);
    case _ =>
  }

  /** A key press the callback answers with "release the grab" is passed on and let go again
      in the same event. */
  lemma ReleaseDuringKey(s: State, grab: nat, key: nat, pressed: bool, script: seq<Action>, consumed: bool)
    requires Inv(s) && s.grab == Some(grab)
    ensures var s' := GrabKey(s, grab, key, pressed, script, consumed);
            s'.grab.None? ==> LastMods(s'.wire) == NO_MODS && forall k :: k < 1024 ==> k !in Held(s'.wire)
  {
    var deeper := s.(keyDepth := s.keyDepth + 1);
    ScriptKeeps(deeper, script);
    var answered := ActAll(deeper, script);
    PassKeyKeeps(answered, key, pressed, consumed);
    var passed := PassKey(answered, key, pressed, consumed).(keyDepth := s.keyDepth);
    if !(passed.wantGrab && passed.current.active) {
      ReleaseKeeps(passed);
    }
  }

  /** Events of a released grab change nothing, ever again. */
  lemma StaleGrabIgnored(init: State, events: seq<Event>, g: nat, e: Event)
    requires Inv(init) && Over(init, g)
    requires (e.GrabKeyEvent? || e.GrabModifiersEvent?) && e.grab == g
    ensures Step(Run(init, events), e) == Run(init, events)
  {
    RunKeeps(init, events);
    assert Over(Run(init, events), g);
  }

  // ---------------------------------------------------------------- transparency

  /** Keys down on the hardware after these grab events. */
  function Pressed(down: set<nat>, keys: seq<(nat, bool)>): set<nat>
    decreases |keys|
  {
    if keys == [] then down
    else Pressed(if keys[0].1 then down + {keys[0].0} else down - {keys[0].0}, keys[1..])
  }

  function PassAll(s: State, grab: nat, keys: seq<(nat, bool)>): State
    decreases |keys|
  {
    if keys == [] then s else PassAll(GrabKey(s, grab, keys[0].0, keys[0].1, [], false), grab, keys[1..])
  }

  lemma PassOneKey(s: State, grab: nat, key: nat, pressed: bool)
    requires Inv(s) && s.grab == Some(grab) && s.keymapSet
    ensures var s' := GrabKey(s, grab, key, pressed, [], false);
            && Inv(s') && s'.grab == Some(grab) && s'.keymapSet
            && Held(s'.wire) == if pressed then Held(s.wire) + {key} else Held(s.wire) - {key}
  {
    var deeper := s.(keyDepth := s.keyDepth + 1);
    PassKeyKeeps(deeper, key, pressed, false);
    StepKeeps(s, GrabKeyEvent(grab, key, pressed, [], false));
  }

  /** With a callback that consumes nothing the grab is transparent: the compositor sees
      exactly the keys the user holds, whatever their codes. */
  lemma {:induction false} GrabIsTransparent(s: State, grab: nat, keys: seq<(nat, bool)>)
    requires Inv(s) && s.grab == Some(grab) && s.keymapSet
    ensures Held(PassAll(s, grab, keys).wire) == Pressed(Held(s.wire), keys)
    ensures PassAll(s, grab, keys).grab == Some(grab)
    decreases |keys|
  {
    if keys != [] {
      PassOneKey(s, grab, keys[0].0, keys[0].1);
      GrabIsTransparent(GrabKey(s, grab, keys[0].0, keys[0].1, [], false), grab, keys[1..]);
    }
  }

  /** A press the callback consumes is not passed on, and neither is its release. */
  lemma ConsumedPairIsSilent(s: State, grab: nat, key: nat)
    requires Inv(s) && s.grab == Some(grab) && key < KEY_COUNT && !s.forwarded[key]
    ensures var s1 := GrabKey(s, grab, key, true, [], true);
            GrabKey(s1, grab, key, false, [], true) == s
  {
    var deeper := s.(keyDepth := s.keyDepth + 1);
    assert PassKey(deeper, key, true, true) == deeper;
    assert deeper.(keyDepth := s.keyDepth) == s;
    assert GrabKey(s, grab, key, true, [], true) == s;
    assert PassKey(deeper, key, false, true) == deeper;
  }

  // ---------------------------------------------------------------- double buffering

  /** The committed text state with its text read out of the heap. */
  datatype Content = Content(active: bool, surrounding: Option<Text>, cursor: nat, purpose: nat, hint: nat)

  function Read(h: Heap, d: Doc): Content {
    Content(d.active,
            if d.surrounding.Some? && d.surrounding.value in h.live then Some(h.live[d.surrounding.value]) else None,
            d.cursor, d.purpose, d.hint)
  }

  /** Whether the last activate or deactivate event was an activate. */
  function ActiveIn(events: seq<Event>): bool {
    if events == [] then false
    else
      var e := events[|events| - 1];
      e.ActivateEvent? || (!e.DeactivateEvent? && ActiveIn(events[..|events| - 1]))
  }

  /** The last surrounding text since the last activate, and its cursor. */
  function SurroundingIn(events: seq<Event>): (Option<Text>, nat) {
    if events == [] then (None, 0)
    else
      var e := events[|events| - 1];
      if e.ActivateEvent? then (None, 0)
      else if e.SurroundingEvent? then (Some(e.text), e.cursor)
      else SurroundingIn(events[..|events| - 1])
  }

  /** The last content type (purpose, hint) since the last activate. */
  function ContentTypeIn(events: seq<Event>): (nat, nat) {
    if events == [] then (0, 0)
    else
      var e := events[|events| - 1];
      if e.ActivateEvent? then (0, 0)
      else if e.ContentTypeEvent? then (e.purpose, e.hint)
      else ContentTypeIn(events[..|events| - 1])
  }

  function ContentIn(events: seq<Event>): Content {
    Content(ActiveIn(events), SurroundingIn(events).0, SurroundingIn(events).1, ContentTypeIn(events).0, ContentTypeIn(events).1)
  }

  /** Events up to and including the last done event. */
  function UpToDone(events: seq<Event>): seq<Event> {
    if events == [] || events[|events| - 1].DoneEvent? then events else UpToDone(events[..|events| - 1])
  }

  function NextContent(c: Content, e: Event): Content {
    match e
    case ActivateEvent => Content(true, None, 0, 0, 0)
    case DeactivateEvent => c.(active := false)
    case SurroundingEvent(text, cursor) => c.(surrounding := Some(text), cursor := cursor)
    case ContentTypeEvent(hint, purpose) => c.(hint := hint, purpose := purpose)
    case _ => c
  }

  lemma ContentInNext(events: seq<Event>)
    requires events != []
    ensures ContentIn(events) == NextContent(ContentIn(events[..|events| - 1]), events[|events| - 1])
  {
  }

  lemma StepDocs(s: State, e: Event)
    requires Inv(s)
    ensures Read(Step(s, e).heap, Step(s, e).pending) == NextContent(Read(s.heap, s.pending), e)
    ensures Read(Step(s, e).heap, Step(s, e).current) == if e.DoneEvent? then Read(s.heap, s.pending) else Read(s.heap, s.current)
  {
    match e
    case Call(action) => ActKeeps(s, action);
    case GrabKeyEvent(grab, key, pressed, script, consumed) => GrabKeyKeeps(s, grab, key, pressed, script, consumed);
    case DoneEvent(script) => DoneKeeps(s, script);
    case _ =>
  }

  /** Double buffering: the current state is what the events up to the last done event say,
      and the pending state is what all events say. */
  lemma {:induction false} CurrentIsLastDone(init: State, events: seq<Event>)
    requires Inv(init) && Read(init.heap, init.current) == Read(init.heap, init.pending) == ContentIn([])
    ensures var s := Run(init, events);
            && Read(s.heap, s.current) == ContentIn(UpToDone(events))
            && Read(s.heap, s.pending) == ContentIn(events)
    decreases |events|
  {
    if events != [] {
      var before, e := events[..|events| - 1], events[|events| - 1];
      RunKeeps(init, before);
      CurrentIsLastDone(init, before);
      StepDocs(Run(init, before), e);
      ContentInNext(events);
    }
  }
}
