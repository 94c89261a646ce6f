/** What is asked of the client decides what others see. */
module ImeIntent {
  import opened Basics
  import opened ImeSpec
  import opened ImeTheorems

  // ---------------------------------------------------------------- what is asked

  /** The calls made during an event, in order; the callback of a released grab is not run. */
  function Performed(s: State, e: Event): seq<Action> {
    match e
    case Call(action) => [action]
    case GrabKeyEvent(grab, _, _, script, _) => if s.grab == Some(grab) then script else []
    case DoneEvent(script) => script
    case _ => []
  }

  /** The last grab requested by these calls, or `was` when they request none. */
  function LastIn(calls: seq<Action>, was: bool): bool
    decreases |calls|
  {
    if calls == [] then was else LastIn(calls[1..], if calls[0].DoSetGrab? then calls[0].grab else was)
  }

  /** The grab requested last, in the order of the calls; at first the one requested before. */
  function LastRequest(init: State, events: seq<Event>): bool {
    if events == [] then init.wantGrab
    else
      var before := events[..|events| - 1];
      LastIn(Performed(Run(init, before), events[|events| - 1]), LastRequest(init, before))
  }

  lemma ActWants(s: State, a: Action)
    requires Basic(s) && GrabMeansIntent(s)
    ensures Act(s, a).wantGrab == if a.DoSetGrab? then a.grab else s.wantGrab
  {
    match a
    case DoSetGrab(grab) => UpdateGrabKeeps(s.(wantGrab := grab));
    case DoForward(key, pressed) => ForwardKeyKeeps(s, key, pressed);
    case DoPreedit(text, cursor) =>
    case DoReplace(before, after, text) =>
  }

  lemma {:induction false} ScriptWants(s: State, script: seq<Action>)
    requires Basic(s) && GrabMeansIntent(s)
    ensures ActAll(s, script).wantGrab == LastIn(script, s.wantGrab)
    decreases |script|
  {
    if script != [] {
      ActKeeps(s, script[0]);
      ActWants(s, script[0]);
      ScriptWants(Act(s, script[0]), script[1..]);
    }
  }

  lemma GrabKeyWants(s: State, grab: nat, key: nat, pressed: bool, script: seq<Action>, consumed: bool)
    requires Inv(s) && s.grab == Some(grab)
    ensures GrabKey(s, grab, key, pressed, script, consumed).wantGrab == LastIn(script, s.wantGrab)
  {
    var deeper := s.(keyDepth := s.keyDepth + 1);
    ScriptKeeps(deeper, script);
    ScriptWants(deeper, script);
    var answered := ActAll(deeper, script);
    PassKeyKeeps(answered, key, pressed, consumed);
    UpdateGrabKeeps(PassKey(answered, key, pressed, consumed).(keyDepth := s.keyDepth));
  }

  lemma StepWants(s: State, e: Event)
    requires Inv(s)
    ensures Step(s, e).wantGrab == LastIn(Performed(s, e), s.wantGrab)
  {
    match e
    case Call(action) => ActWants(s, action);
    case GrabKeyEvent(grab, key, pressed, script, consumed) =>
      if s.grab == Some(grab) {
        GrabKeyWants(s, grab, key, pressed, script, consumed);
      }
    case DoneEvent(script) =>
      ApplyBasic(s);
      UpdateGrabKeeps(ApplyPending(s));
      ScriptWants(UpdateGrab(ApplyPending(s)), script);
    case _ =>
  }

  /** The keyboard is grabbed exactly when the last `set_grab` asked for it and the committed
      state is active, over every run. */
  lemma {:induction false} GrabFollowsLastRequest(init: State, events: seq<Event>)
    requires Inv(init)
    ensures var s := Run(init, events);
            && s.wantGrab == LastRequest(init, events)
            && (s.grab.Some? <==> LastRequest(init, events) && s.current.active)
    decreases |events|
  {
    RunKeeps(init, events);
    if events != [] {
      var before := events[..|events| - 1];
      GrabFollowsLastRequest(init, before);
      RunKeeps(init, before);
      StepWants(Run(init, before), events[|events| - 1]);
    }
  }

  // ---------------------------------------------------------------- a text field

  /** A text field under zwp_input_method_v2: the text around its cursor, and the preedit shown. */
  datatype Field = Field(before: Text, after: Text, preedit: Text, cursor: Cursor)

  /** What has been sent and takes effect at the next commit. */
  datatype Change = Change(preedit: Text, cursor: Cursor, deleteBefore: nat, deleteAfter: nat, commit: Text)

  const NO_CURSOR := Cursor(0, 0)
  const NO_CHANGE := Change([], NO_CURSOR, 0, 0, [])

  function CutEnd(s: Text, n: nat): Text { if n <= |s| then s[..|s| - n] else [] }

  function CutFront(s: Text, n: nat): Text { if n <= |s| then s[n..] else [] }

  /** A commit removes the old preedit, deletes around the cursor, inserts the committed string
      before the cursor and shows the new preedit. */
  function Committed(f: Field, c: Change): Field {
    Field(CutEnd(f.before, c.deleteBefore) + c.commit, CutFront(f.after, c.deleteAfter), c.preedit, c.cursor)
  }

  /** What the other side of the wire has made of it: the field, the grab it serves, whether the
      forwarding keyboard has a keymap, and how many done events it has sent. */
  datatype Seen = Seen(field: Field, change: Change, grab: Option<nat>, keymap: bool, dones: nat)

  function See(v: Seen, w: Wire): Seen {
    match w
    case Key(_, _) => v
    case Modifiers(_) => v
    case Keymap => v.(keymap := true)
    case GrabKeyboard(id) => v.(grab := Some(id))
    case ReleaseGrab(id) => v.(grab := if v.grab == Some(id) then None else v.grab)
    case Preedit(text, cursor) => v.(change := v.change.(preedit := text, cursor := cursor))
    case DeleteSurrounding(before, after) => v.(change := v.change.(deleteBefore := before, deleteAfter := after))
    case CommitString(text) => v.(change := v.change.(commit := text))
    case Commit(_) => v.(field := Committed(v.field, v.change), change := NO_CHANGE)
    case DoneReceived => v.(dones := v.dones + 1)
  }

  function SeeAll(v: Seen, wire: seq<Wire>): Seen {
    if wire == [] then v else See(SeeAll(v, wire[..|wire| - 1]), wire[|wire| - 1])
  }

  lemma SeeSnoc(v: Seen, wire: seq<Wire>, w: Wire)
    ensures SeeAll(v, wire + [w]) == See(SeeAll(v, wire), w)
  {
    assert (wire + [w])[..|wire|] == wire;
  }

  /** What a call means for the field: a preedit is shown or cleared, or text around the cursor is
      replaced. */
  function Edit(f: Field, a: Action): Field {
    match a
    case DoPreedit(text, cursor) => f.(preedit := text, cursor := if text == [] then NO_CURSOR else cursor)
    case DoReplace(before, after, text) => Field(CutEnd(f.before, before) + text, CutFront(f.after, after), [], NO_CURSOR)
    case _ => f
  }

  function EditAll(f: Field, calls: seq<Action>): Field
    decreases |calls|
  {
    if calls == [] then f else EditAll(Edit(f, calls[0]), calls[1..])
  }

  /** The committed state is active while the calls of this event are made. */
  predicate ActiveFor(s: State, e: Event) { if e.DoneEvent? then s.pending.active else s.current.active }

  function FieldAfter(f: Field, init: State, events: seq<Event>): Field {
    if events == [] then f
    else
      var before, e := events[..|events| - 1], events[|events| - 1];
      var s := Run(init, before);
      if ActiveFor(s, e) then EditAll(FieldAfter(f, init, before), Performed(s, e)) else FieldAfter(f, init, before)
  }

  /** The other side sees what the client is in. */
  ghost predicate Shows(v: Seen, s: State, f: Field, dones: nat) {
    SeeAll(v, s.wire) == Seen(f, NO_CHANGE, s.grab, s.keymapSet, dones)
  }

  lemma ForwardSeen(v: Seen, s: State, key: nat, pressed: bool)
    ensures SeeAll(v, ForwardKey(s, key, pressed).wire) == SeeAll(v, s.wire)
    ensures SeeAll(v, SendForward(s, key, pressed).wire) == SeeAll(v, s.wire)
  {
    SeeSnoc(v, s.wire, Key(key, pressed));
  }

  lemma {:induction false} ReleaseSeen(v: Seen, s: State, key: nat)
    ensures SeeAll(v, ReleaseFrom(s, key).wire) == SeeAll(v, s.wire)
    decreases |s.forwarded| - key
  {
    if key < |s.forwarded| {
      var next := if s.forwarded[key] then ForwardKey(s, key, false) else s;
      ForwardSeen(v, s, key, false);
      ReleaseSeen(v, next, key + 1);
    }
  }

  lemma UpdateGrabSeen(v: Seen, s: State, f: Field, dones: nat)
    requires Basic(s) && Shows(v, s, f, dones)
    ensures Shows(v, UpdateGrab(s), f, dones)
  {
    UpdateGrabKeeps(s);
    SeeSnoc(v, s.wire, GrabKeyboard(s.nextGrab));
    ReleaseSeen(v, s, 0);
    if s.grab.Some? {
      var released := ReleaseForwardedKeys(s);
      SeeSnoc(v, ReleaseFrom(s, 0).wire, Modifiers(NO_MODS));
      SeeSnoc(v, released.wire, ReleaseGrab(s.grab.value));
    }
  }

  lemma AppendSeen(v: Seen, wire: seq<Wire>, sent: bool, w: Wire)
    ensures SeeAll(v, wire + (if sent then [w] else [])) == if sent then See(SeeAll(v, wire), w) else SeeAll(v, wire)
  {
    if sent {
      SeeSnoc(v, wire, w);
    } else {
      assert wire + [] == wire;
    }
  }

  lemma PreeditOnly(f: Field, text: Text, cursor: Cursor)
    ensures Committed(f, NO_CHANGE.(preedit := text, cursor := cursor)) == f.(preedit := text, cursor := cursor)
  {
  }

  lemma PreeditSeen(v: Seen, s: State, text: Text, cursor: Cursor, f: Field, dones: nat)
    requires s.current.active && Shows(v, s, f, dones)
    ensures Shows(v, SendPreedit(s, text, cursor), Edit(f, DoPreedit(text, cursor)), dones)
  {
    AppendSeen(v, s.wire, text != [], Preedit(text, cursor));
    SeeSnoc(v, s.wire + (if text != [] then [Preedit(text, cursor)] else []), Commit(s.serial));
    PreeditOnly(f, if text != [] then text else [], if text != [] then cursor else NO_CURSOR);
  }

  /** What a replace has sent before its commit. */
  function Replacing(before: nat, after: nat, text: Text): Change { Change([], NO_CURSOR, before, after, text) }

  lemma ReplaceSent(v: Seen, wire: seq<Wire>, before: nat, after: nat, text: Text)
    requires SeeAll(v, wire).change == NO_CHANGE
    ensures var deleted := wire + (if before > 0 || after > 0 then [DeleteSurrounding(before, after)] else []);
            SeeAll(v, deleted + (if text != [] then [CommitString(text)] else [])) ==
            SeeAll(v, wire).(change := Replacing(before, after, text))
  {
    var delete := before > 0 || after > 0;
    AppendSeen(v, wire, delete, DeleteSurrounding(before, after));
    AppendSeen(v, wire + (if delete then [DeleteSurrounding(before, after)] else []), text != [], CommitString(text));
  }

  lemma ReplaceSeen(v: Seen, s: State, before: nat, after: nat, text: Text, f: Field, dones: nat)
    requires s.current.active && Shows(v, s, f, dones)
    ensures Shows(v, SendReplace(s, before, after, text), Edit(f, DoReplace(before, after, text)), dones)
  {
    ReplaceSent(v, s.wire, before, after, text);
    var deleted := s.wire + (if before > 0 || after > 0 then [DeleteSurrounding(before, after)] else []);
    SeeSnoc(v, deleted + (if text != [] then [CommitString(text)] else []), Commit(s.serial));
  }

  lemma ActSeen(v: Seen, s: State, a: Action, f: Field, dones: nat)
    requires Basic(s) && GrabMeansIntent(s) && Shows(v, s, f, dones)
    ensures Shows(v, Act(s, a), if s.current.active then Edit(f, a) else f, dones)
  {
    match a
    case DoSetGrab(grab) => UpdateGrabSeen(v, s.(wantGrab := grab), f, dones);
    case DoForward(key, pressed) => ForwardSeen(v, s, key, pressed);
    case DoPreedit(text, cursor) =>
      if s.current.active {
        PreeditSeen(v, s, text, cursor, f, dones);
      }
    case DoReplace(before, after, text) =>
      if s.current.active {
        ReplaceSeen(v, s, before, after, text, f, dones);
      }
  }

  lemma {:induction false} ScriptSeen(v: Seen, s: State, script: seq<Action>, f: Field, dones: nat)
    requires Basic(s) && GrabMeansIntent(s) && Shows(v, s, f, dones)
    ensures Shows(v, ActAll(s, script), if s.current.active then EditAll(f, script) else f, dones)
    decreases |script|
  {
    if script != [] {
      ActKeeps(s, script[0]);
      ActSeen(v, s, script[0], f, dones);
      ScriptSeen(v, Act(s, script[0]), script[1..], if s.current.active then Edit(f, script[0]) else f, dones);
    }
  }

  lemma PassKeySeen(v: Seen, s: State, key: nat, pressed: bool, consumed: bool)
    ensures SeeAll(v, PassKey(s, key, pressed, consumed).wire) == SeeAll(v, s.wire)
  {
    ForwardSeen(v, s, key, pressed);
  }

  lemma PassKeyMods(s: State, key: nat, pressed: bool, consumed: bool)
    requires Basic(s)
    ensures LastMods(PassKey(s, key, pressed, consumed).wire) == LastMods(s.wire)
  {
    ForwardKeyKeeps(s, key, pressed);
    SendForwardKeeps(s, key, pressed);
  }

  lemma GrabKeySeen(v: Seen, s: State, grab: nat, key: nat, pressed: bool, script: seq<Action>, consumed: bool, f: Field, dones: nat)
    requires Inv(s) && s.grab == Some(grab) && Shows(v, s, f, dones)
    ensures Shows(v, GrabKey(s, grab, key, pressed, script, consumed), if s.current.active then EditAll(f, script) else f, dones)
  {
    var deeper := s.(keyDepth := s.keyDepth + 1);
    ScriptKeeps(deeper, script);
    ScriptSeen(v, deeper, script, f, dones);
    var answered := ActAll(deeper, script);
    PassKeyKeeps(answered, key, pressed, consumed);
    PassKeySeen(v, answered, key, pressed, consumed);
    var passed := PassKey(answered, key, pressed, consumed).(keyDepth := s.keyDepth);
    UpdateGrabSeen(v, passed, if s.current.active then EditAll(f, script) else f, dones);
  }

  lemma DoneSeen(v: Seen, s: State, script: seq<Action>, f: Field, dones: nat)
    requires Inv(s) && Shows(v, s, f, dones)
    ensures Shows(v, Done(s, script), if s.pending.active then EditAll(f, script) else f, dones + 1)
  {
    var applied := ApplyPending(s);
    ApplyBasic(s);
    SeeSnoc(v, s.wire, DoneReceived);
    UpdateGrabKeeps(applied);
    UpdateGrabSeen(v, applied, f, dones + 1);
    ScriptSeen(v, UpdateGrab(applied), script, f, dones + 1);
  }

  lemma StepSeen(v: Seen, s: State, e: Event, f: Field, dones: nat)
    requires Inv(s) && Shows(v, s, f, dones)
    ensures Shows(v, Step(s, e), if ActiveFor(s, e) then EditAll(f, Performed(s, e)) else f, dones + if e.DoneEvent? then 1 else 0)
  {
    match e
    case Call(action) =>
      ActSeen(v, s, action, f, dones);
      assert EditAll(Edit(f, action), []) == Edit(f, action);
    case GrabKeymapEvent => SeeSnoc(v, s.wire, Keymap);
    case GrabKeyEvent(grab, key, pressed, script, consumed) =>
      if s.grab == Some(grab) {
        GrabKeySeen(v, s, grab, key, pressed, script, consumed, f, dones);
      }
    case GrabModifiersEvent(grab, mods) => SeeSnoc(v, s.wire, Modifiers(mods));
    case DoneEvent(script) => DoneSeen(v, s, script, f, dones);
    case _ =>
  }

  // ---------------------------------------------------------------- whole runs

  predicate KeymapIn(events: seq<Event>) { exists i :: 0 <= i < |events| && events[i].GrabKeymapEvent? }

  function DonesIn(events: seq<Event>): nat {
    if events == [] then 0 else DonesIn(events[..|events| - 1]) + (if events[|events| - 1].DoneEvent? then 1 else 0)
  }

  lemma KeymapInSnoc(events: seq<Event>)
    requires events != []
    ensures KeymapIn(events) <==> KeymapIn(events[..|events| - 1]) || events[|events| - 1].GrabKeymapEvent?
  {
  }

  lemma StepKeymap(s: State, e: Event)
    requires Inv(s)
    ensures Step(s, e).keymapSet <==> s.keymapSet || e.GrabKeymapEvent?
  {
    match e
    case Call(action) => ActKeeps(s, action);
    case GrabKeyEvent(grab, key, pressed, script, consumed) => GrabKeyKeeps(s, grab, key, pressed, script, consumed);
    case DoneEvent(script) =>
      ApplyBasic(s);
      UpdateGrabKeeps(ApplyPending(s));
      ScriptKeeps(UpdateGrab(ApplyPending(s)), script);
    case _ =>
  }

  function Fresh(f: Field): Seen { Seen(f, NO_CHANGE, None, false, 0) }

  /** Over every run, what the other side has made of the wire: the field is what the calls made
      of it while the state was active, the grab it serves is the client's, keys are forwarded
      from the first keymap on, and the serial counts the done events. */
  lemma {:induction false} OthersSee(wantGrab: bool, forwarded: seq<bool>, f: Field, events: seq<Event>)
    requires |forwarded| == 1024
    ensures var init := Init(wantGrab, forwarded); var s := Run(init, events);
            && Shows(Fresh(f), s, FieldAfter(f, init, events), DonesIn(events))
            && (s.keymapSet <==> KeymapIn(events))
            && s.serial == DonesIn(events) % UINT32
    decreases |events|
  {
    var init := Init(wantGrab, forwarded);
    InitHolds(wantGrab, forwarded);
    if events != [] {
      var before, e := events[..|events| - 1], events[|events| - 1];
      OthersSee(wantGrab, forwarded, f, before);
      RunKeeps(init, before);
      RunKeeps(init, events);
      StepSeen(Fresh(f), Run(init, before), e, FieldAfter(f, init, before), DonesIn(before));
      StepKeymap(Run(init, before), e);
      KeymapInSnoc(events);
    }
    DonesSeen(Fresh(f), Run(init, events).wire);
    RunKeeps(init, events);
  }

  lemma {:induction false} DonesSeen(v: Seen, wire: seq<Wire>)
    ensures SeeAll(v, wire).dones == v.dones + DoneCount(wire)
    decreases |wire|
  {
    if wire != [] {
      DonesSeen(v, wire[..|wire| - 1]);
    }
  }

  // ---------------------------------------------------------------- keys and modifiers

  /** A key the caller forwards is held, or let go, as it says. */
  lemma ForwardedKeyIsSeen(s: State, key: nat, pressed: bool)
    requires Inv(s) && s.keymapSet
    ensures Held(Act(s, DoForward(key, pressed)).wire) == if pressed then Held(s.wire) + {key} else Held(s.wire) - {key}
  {
    ForwardKeyKeeps(s, key, pressed);
  }

  /** Modifiers of the grab are passed on once there is a keymap, and others are not. */
  lemma ModifiersArePassedOn(s: State, grab: nat, mods: Mods)
    requires Inv(s)
    ensures LastMods(Step(s, GrabModifiersEvent(grab, mods)).wire) ==
            if s.grab == Some(grab) && s.keymapSet then mods else LastMods(s.wire)
  {
    Snoc(s.wire, Modifiers(mods));
  }

  /** The modifiers are those of before, or none once the grab they belonged to is over. */
  ghost predicate ModsFollow(s: State, s': State) {
    LastMods(s'.wire) == if s.grab.Some? && s'.grab != s.grab then NO_MODS else LastMods(s.wire)
  }

  lemma UpdateGrabMods(s: State)
    requires Basic(s)
    ensures ModsFollow(s, UpdateGrab(s))
  {
    if s.keyDepth == 0 {
      if s.wantGrab && s.current.active {
        Snoc(s.wire, GrabKeyboard(s.nextGrab));
      } else if s.grab.Some? {
        ReleaseKeeps(s);
      }
    }
  }

  lemma AppendMods(wire: seq<Wire>, sent: bool, w: Wire)
    requires !w.Modifiers?
    ensures LastMods(wire + (if sent then [w] else [])) == LastMods(wire)
  {
    if sent {
      Snoc(wire, w);
    } else {
      assert wire + [] == wire;
    }
  }

  lemma ActMods(s: State, a: Action)
    requires Basic(s) && GrabMeansIntent(s)
    ensures ModsFollow(s, Act(s, a))
  {
    match a
    case DoSetGrab(grab) => UpdateGrabMods(s.(wantGrab := grab));
    case DoForward(key, pressed) => ForwardKeyKeeps(s, key, pressed);
    case DoPreedit(text, cursor) =>
      AppendMods(s.wire, text != [], Preedit(text, cursor));
      AppendMods(s.wire + (if text != [] then [Preedit(text, cursor)] else []), true, Commit(s.serial));
    case DoReplace(before, after, text) =>
      var delete := before > 0 || after > 0;
      var deleted := s.wire + (if delete then [DeleteSurrounding(before, after)] else []);
      AppendMods(s.wire, delete, DeleteSurrounding(before, after));
      AppendMods(deleted, text != [], CommitString(text));
      AppendMods(deleted + (if text != [] then [CommitString(text)] else []), true, Commit(s.serial));
  }

  lemma ModsFollowOn(a: State, b: State, c: State)
    requires Basic(a) && ModsFollow(a, b) && ModsFollow(b, c)
    requires a.grab.Some? && b.grab != a.grab ==> c.grab != a.grab
    ensures ModsFollow(a, c)
  {
  }

  lemma {:induction false} ScriptMods(s: State, script: seq<Action>)
    requires Basic(s) && GrabMeansIntent(s)
    ensures ModsFollow(s, ActAll(s, script))
    decreases |script|
  {
    if script != [] {
      var s1 := Act(s, script[0]);
      ActKeeps(s, script[0]);
      ActMods(s, script[0]);
      ScriptKeeps(s1, script[1..]);
      ScriptMods(s1, script[1..]);
      if s.grab.Some? && s1.grab != s.grab {
        assert Over(s1, s.grab.value);
      }
      ModsFollowOn(s, s1, ActAll(s, script));
    }
  }

  lemma GrabKeyMods(s: State, grab: nat, key: nat, pressed: bool, script: seq<Action>, consumed: bool)
    requires Inv(s) && s.grab == Some(grab)
    ensures ModsFollow(s, GrabKey(s, grab, key, pressed, script, consumed))
  {
    var deeper := s.(keyDepth := s.keyDepth + 1);
    ScriptKeeps(deeper, script);
    ScriptMods(deeper, script);
    var answered := ActAll(deeper, script);
    PassKeyKeeps(answered, key, pressed, consumed);
    PassKeyMods(answered, key, pressed, consumed);
    var passed := PassKey(answered, key, pressed, consumed).(keyDepth := s.keyDepth);
    UpdateGrabMods(passed);
    ModsFollowOn(s, passed, UpdateGrab(passed));
  }

  lemma DoneMods(s: State, script: seq<Action>)
    requires Inv(s)
    ensures ModsFollow(s, Done(s, script))
  {
    var applied := ApplyPending(s);
    var updated := UpdateGrab(applied);
    ApplyBasic(s);
    Snoc(s.wire, DoneReceived);
    UpdateGrabKeeps(applied);
    UpdateGrabMods(applied);
    ScriptKeeps(updated, script);
    ScriptMods(updated, script);
    if s.grab.Some? && updated.grab != s.grab {
      assert Over(updated, s.grab.value);
    }
    ModsFollowOn(s, updated, ActAll(updated, script));
  }

  /** The modifiers in force: those last passed on for the grab that lasts, else none. */
  function ModsAfter(init: State, events: seq<Event>): Mods {
    if events == [] then NO_MODS
    else
      var before, e := events[..|events| - 1], events[|events| - 1];
      var s := Run(init, before);
      if e.GrabModifiersEvent? && s.grab == Some(e.grab) && s.keymapSet then e.mods
      else if s.grab.Some? && Run(init, events).grab != s.grab then NO_MODS
      else ModsAfter(init, before)
  }

  lemma {:induction false} ModifiersFollowGrab(init: State, events: seq<Event>)
    requires Inv(init) && init.wire == []
    ensures LastMods(Run(init, events).wire) == ModsAfter(init, events)
    decreases |events|
  {
    if events != [] {
      var before, e := events[..|events| - 1], events[|events| - 1];
      var s := Run(init, before);
      RunKeeps(init, before);
      ModifiersFollowGrab(init, before);
      match e
      case Call(action) => ActMods(s, action);
      case GrabKeymapEvent => Snoc(s.wire, Keymap);
      case GrabKeyEvent(grab, key, pressed, script, consumed) =>
        if s.grab == Some(grab) {
          GrabKeyMods(s, grab, key, pressed, script, consumed);
        }
      case GrabModifiersEvent(grab, mods) => ModifiersArePassedOn(s, grab, mods);
      case DoneEvent(script) => DoneMods(s, script);
      case _ =>
    }
  }
}
