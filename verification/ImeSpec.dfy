/** The input method client of src/wayland/ime.c, from a successful start on, as a state
    machine over compositor events, API calls and re-entrant key and state callbacks. */
module ImeSpec {
  import opened Basics

  type Text = seq<char>

  const KEY_COUNT := 1024
  datatype Mods = Mods(depressed: nat, latched: nat, locked: nat, group: nat)

  const NO_MODS := Mods(0, 0, 0, 0)

  /** Where the cursor is drawn in a preedit string, in bytes. */
  datatype Cursor = Cursor(begin: int, end: int)

  /** What crosses the wire, in order: requests sent, and the done events received. */
  datatype Wire =
    | Key(key: nat, pressed: bool)
    | Modifiers(mods: Mods)
    | Keymap
    | GrabKeyboard(id: nat)
    | ReleaseGrab(id: nat)
    | Preedit(text: Text, cursor: Cursor)
    | DeleteSurrounding(before: nat, after: nat)
    | CommitString(text: Text)
    | Commit(serial: nat)
    | DoneReceived

  /** `struct ime_state`; the surrounding text is a pointer into the heap of strings. */
  datatype Doc = Doc(active: bool, surrounding: Option<nat>, cursor: nat, purpose: nat, hint: nat)

  const NO_DOC := Doc(false, None, 0, 0, 0)

  /** Heap strings allocated and not yet freed; `safe` is lost by freeing a dead one. */
  datatype Heap = Heap(live: map<nat, Text>, next: nat, safe: bool)

  datatype State = State(
    grab: Option<nat>,
    nextGrab: nat,
    keymapSet: bool,
    forwarded: seq<bool>,
    pending: Doc,
    current: Doc,
    heap: Heap,
    serial: nat,
    wantGrab: bool,
    keyDepth: nat,
    wire: seq<Wire>)

  /** The state after a start; `set_grab` and `forward_key` may have been called before it,
      when there was nothing to send to. */
  function Init(wantGrab: bool, forwarded: seq<bool>): State {
    State(None, 0, false, forwarded, NO_DOC, NO_DOC, Heap(map[], 0, true), 0, wantGrab, 0, [])
  }

  // ---------------------------------------------------------------- forwarding keys

  function SendForward(s: State, key: nat, pressed: bool): State {
    if !s.keymapSet then s else s.(wire := s.wire + [Key(key, pressed)])
  }

  function Mark(s: State, key: nat, pressed: bool): State {
    if key < |s.forwarded| then s.(forwarded := s.forwarded[key := pressed]) else s
  }

  function ForwardKey(s: State, key: nat, pressed: bool): State {
    Mark(SendForward(s, key, pressed), key, pressed)
  }

  function ReleaseFrom(s: State, key: nat): State
    decreases |s.forwarded| - key
  {
    if key >= |s.forwarded| then s
    else ReleaseFrom(if s.forwarded[key] then ForwardKey(s, key, false) else s, key + 1)
  }

  function ReleaseForwardedKeys(s: State): State {
    var released := ReleaseFrom(s, 0);
    if s.keymapSet then released.(wire := released.wire + [Modifiers(NO_MODS)]) else released
  }

  // ---------------------------------------------------------------- the grab

  function UpdateGrab(s: State): State {
    if s.keyDepth != 0 then s
    else
      var wanted := s.wantGrab && s.current.active;
      if wanted && s.grab.None? then
        s.(grab := Some(s.nextGrab), nextGrab := s.nextGrab + 1, wire := s.wire + [GrabKeyboard(s.nextGrab)])
      else if !wanted && s.grab.Some? then
        var released := ReleaseForwardedKeys(s);
        released.(grab := None, wire := released.wire + [ReleaseGrab(s.grab.value)])
      else s
  }

  function SetGrab(s: State, grab: bool): State { UpdateGrab(s.(wantGrab := grab)) }

  // ---------------------------------------------------------------- composing

  function SendPreedit(s: State, text: Text, cursor: Cursor): State {
    if !s.current.active then s
    else s.(wire := s.wire + (if text != [] then [Preedit(text, cursor)] else []) + [Commit(s.serial)])
  }

  function SendReplace(s: State, before: nat, after: nat, text: Text): State {
    if !s.current.active then s
    else s.(wire := s.wire
                  + (if before > 0 || after > 0 then [DeleteSurrounding(before, after)] else [])
                  + (if text != [] then [CommitString(text)] else [])
                  + [Commit(s.serial)])
  }

  /** What a callback may do: any sequence of API calls. */
  datatype Action =
    | DoSetGrab(grab: bool)
    | DoForward(key: nat, pressed: bool)
    | DoPreedit(text: Text, cursor: Cursor)
    | DoReplace(before: nat, after: nat, text: Text)

  function Act(s: State, a: Action): State {
    match a
    case DoSetGrab(grab) => SetGrab(s, grab)
    case DoForward(key, pressed) => ForwardKey(s, key, pressed)
    case DoPreedit(text, cursor) => SendPreedit(s, text, cursor)
    case DoReplace(before, after, text) => SendReplace(s, before, after, text)
  }

  function ActAll(s: State, script: seq<Action>): State
    decreases |script|
  {
    if script == [] then s else ActAll(Act(s, script[0]), script[1..])
  }

  /** Passing one key on, once the callback has answered. */
  function PassKey(s: State, key: nat, pressed: bool, consumed: bool): State {
    if key >= |s.forwarded| then (if consumed then s else SendForward(s, key, pressed))
    else if pressed then (if consumed then s else ForwardKey(s, key, true))
    else if s.forwarded[key] then ForwardKey(s, key, false)
    else s
  }

  function GrabKey(s: State, grab: nat, key: nat, pressed: bool, script: seq<Action>, consumed: bool): State {
    if s.grab != Some(grab) then s
    else
      var answered := ActAll(s.(keyDepth := s.keyDepth + 1), script);
      var passed := PassKey(answered, key, pressed, consumed);
      UpdateGrab(passed.(keyDepth := s.keyDepth))
  }

  function GrabModifiers(s: State, grab: nat, mods: Mods): State {
    if s.grab != Some(grab) || !s.keymapSet then s else s.(wire := s.wire + [Modifiers(mods)])
  }

  // ---------------------------------------------------------------- double buffering

  function Free(h: Heap, p: Option<nat>): Heap {
    match p
    case None => h
    case Some(ptr) => Heap(h.live - {ptr}, h.next, h.safe && ptr in h.live)
  }

  function Alloc(h: Heap, text: Text): (Heap, nat) { (Heap(h.live[h.next := text], h.next + 1, h.safe), h.next) }

  /** `g_strdup` of a possibly null pointer; reading a dead string is unsafe. */
  function Duplicate(h: Heap, p: Option<nat>): (Heap, Option<nat>) {
    match p
    case None => (h, None)
    case Some(ptr) =>
      if ptr in h.live then var (h', q) := Alloc(h, h.live[ptr]); (h', Some(q)) else (h.(safe := false), None)
  }

  function Activate(s: State): State {
    s.(heap := Free(s.heap, s.pending.surrounding), pending := NO_DOC.(active := true))
  }

  function SurroundingText(s: State, text: Text, cursor: nat): State {
    var (heap, ptr) := Alloc(Free(s.heap, s.pending.surrounding), text);
    s.(heap := heap, pending := s.pending.(surrounding := Some(ptr), cursor := cursor))
  }

  function ApplyPending(s: State): State {
    var (heap, copy) := Duplicate(Free(s.heap, s.current.surrounding), s.pending.surrounding);
    s.(serial := (s.serial + 1) % UINT32, heap := heap,
       current := s.pending.(surrounding := copy), wire := s.wire + [DoneReceived])
  }

  function Done(s: State, script: seq<Action>): State { ActAll(UpdateGrab(ApplyPending(s)), script) }

  datatype Event =
    | Call(action: Action)
    | GrabKeymapEvent
    | GrabKeyEvent(grab: nat, key: nat, pressed: bool, script: seq<Action>, consumed: bool)
    | GrabModifiersEvent(grab: nat, mods: Mods)
    | ActivateEvent
    | DeactivateEvent
    | SurroundingEvent(text: Text, cursor: nat)
    | ContentTypeEvent(hint: nat, purpose: nat)
    | DoneEvent(script: seq<Action>)

  function Step(s: State, e: Event): State {
    match e
    case Call(action) => Act(s, action)
    case GrabKeymapEvent => s.(keymapSet := true, wire := s.wire + [Keymap])
    case GrabKeyEvent(grab, key, pressed, script, consumed) => GrabKey(s, grab, key, pressed, script, consumed)
    case GrabModifiersEvent(grab, mods) => GrabModifiers(s, grab, mods)
    case ActivateEvent => Activate(s)
    case DeactivateEvent => s.(pending := s.pending.(active := false))
    case SurroundingEvent(text, cursor) => SurroundingText(s, text, cursor)
    case ContentTypeEvent(hint, purpose) => s.(pending := s.pending.(hint := hint, purpose := purpose))
    case DoneEvent(script) => Done(s, script)
  }

  function Run(init: State, events: seq<Event>): State {
    if events == [] then init else Step(Run(init, events[..|events| - 1]), events[|events| - 1])
  }
}
