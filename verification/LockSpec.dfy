/** The lock screen of src/lockscreen/lock_main.c: its enter, idle and leave phases over a
    changing set of outputs, the password field, and when the session is unlocked. */
module LockSpec {
  import opened Basics

  const PASSWORD_SIZE := 1024

  datatype Phase = Idle | Enter | Leave

  /** `frame` is a pending frame callback; `starved` remembers that the last attempt to
      paint this output found no buffer. */
  datatype Output = Output(name: nat, surface: bool, configured: bool, frame: bool, starved: bool)

  /** Facts a reader of the session's history cares about. */
  datatype Fact = Attempted(password: seq<byte>) | Authenticated | Unlocked

  datatype State = State(
    outputs: seq<Output>,
    phase: Phase,
    started: bool,     // the animation clock has been set
    shaking: bool,
    locked: bool,
    running: bool,
    reduced: bool,     // reduced motion
    password: seq<byte>,
    facts: seq<Fact>)

  function Init(reduced: bool): State { State([], Enter, false, false, false, true, reduced, [], []) }

  /** What the environment decides about one repaint: whether there is a buffer, whether
      the animation has run its time, and whether the shake has died down. */
  datatype Paint = Paint(buffer: bool, atEnd: bool, calm: bool)

  const DEFAULT_PAINT := Paint(true, false, true)

  function PaintOf(paints: seq<Paint>, i: nat): Paint { if i < |paints| then paints[i] else DEFAULT_PAINT }

  function SetOutput(s: State, i: nat, o: Output): State
    requires i < |s.outputs|
  {
    s.(outputs := s.outputs[i := o])
  }

  /** `apply_motion`: the new phase, clock and shake, and whether anything still moves. */
  function Motion(s: State, p: Paint): (State, bool) {
    var moving := s.phase != Idle && !p.atEnd;
    var s1 := if s.phase == Idle then s
              else s.(started := true, phase := if p.atEnd && s.phase == Enter then Idle else s.phase);
    var s2 := s1.(shaking := s1.shaking && !p.calm);
    (s2, moving || s2.shaking)
  }

  /** `render_output`. */
  function Render(s: State, i: nat, p: Paint): State
    requires i < |s.outputs|
  {
    if s.outputs[i].frame then s
    else if !p.buffer then SetOutput(s, i, s.outputs[i].(starved := true))
    else
      var (s1, moving) := Motion(s, p);
      if i < |s1.outputs| then
        SetOutput(s1, i, s1.outputs[i].(frame := moving || s1.phase == Leave, starved := false))
      else s1
  }

  /** `render_all` from output `i` on. */
  function RenderFrom(s: State, i: nat, paints: seq<Paint>): (r: State)
    ensures |r.outputs| == |s.outputs|
    decreases |s.outputs| - i
  {
    if i >= |s.outputs| then s
    else RenderFrom(if s.outputs[i].configured then Render(s, i, PaintOf(paints, i)) else s, i + 1, paints)
  }

  function RenderAll(s: State, paints: seq<Paint>): State { RenderFrom(s, 0, paints) }

  function Unlock(s: State): State { s.(facts := s.facts + [Unlocked], running := false) }

  predicate AnyConfigured(s: State) { exists i :: 0 <= i < |s.outputs| && s.outputs[i].configured }

  function BeginLeave(s: State, paints: seq<Paint>): State {
    if s.phase == Leave then s
    else if !AnyConfigured(s) then Unlock(s)
    else RenderAll(s.(shaking := false, phase := Leave, started := false), paints)
  }

  // ---------------------------------------------------------------- events

  function FrameDone(s: State, i: nat, elapsed: bool, p: Paint): State
    requires i < |s.outputs|
  {
    var s1 := SetOutput(s, i, s.outputs[i].(frame := false));
    if s1.phase == Leave && s1.started && elapsed then Unlock(s1.(phase := Idle))
    else Render(s1, i, p)
  }

  function Configure(s: State, i: nat, p: Paint): State
    requires i < |s.outputs|
  {
    Render(SetOutput(s, i, s.outputs[i].(configured := true)), i, p)
  }

  function AddOutput(s: State, name: nat): State {
    s.(outputs := [Output(name, s.locked, false, false, false)] + s.outputs)
  }

  /** Position of the first output with this name, or -1. */
  function Find(outputs: seq<Output>, name: nat, i: nat): (r: int)
    ensures -1 <= r < |outputs| && (r >= 0 ==> i <= r && outputs[r].name == name)
    decreases |outputs| - i
  {
    if i >= |outputs| then -1 else if outputs[i].name == name then i else Find(outputs, name, i + 1)
  }

  function RemoveOutput(s: State, name: nat): State {
    var at := Find(s.outputs, name, 0);
    if at < 0 then s
    else
      var s1 := s.(outputs := s.outputs[..at] + s.outputs[at + 1..]);
      if s1.phase == Leave && !AnyConfigured(s1) then Unlock(s1) else s1
  }

  function LockConfirmed(s: State): State {
    s.(locked := true, outputs := seq(|s.outputs|, i requires 0 <= i < |s.outputs| => s.outputs[i].(surface := true)))
  }

  /** `submit_password`; `granted` is PAM's answer. */
  function Submit(s: State, granted: bool, first: seq<Paint>, second: seq<Paint>): State {
    if s.password == [] then s
    else
      var asked := RenderAll(s, first);
      var wiped := asked.(password := [], facts := asked.facts + [Attempted(s.password)]);
      if granted then BeginLeave(wiped.(facts := wiped.facts + [Authenticated]), second)
      else RenderAll(wiped.(shaking := wiped.shaking || !wiped.reduced), second)
  }

  function FingerprintMatch(s: State, first: seq<Paint>, second: seq<Paint>): State {
    BeginLeave(RenderAll(s.(facts := s.facts + [Authenticated]), first), second)
  }

  predicate Fits(s: State, text: seq<byte>) {
    text != [] && text[0] >= 0x20 && |s.password| + |text| < PASSWORD_SIZE - 1
  }

  datatype KeyAction = EnterKey(granted: bool) | BackSpace | Escape | MediaKey | TypeText(text: seq<byte>)

  function KeyPress(s: State, k: KeyAction, first: seq<Paint>, second: seq<Paint>): State {
    if s.phase == Leave then s
    else
      match k
      case EnterKey(granted) => Submit(s, granted, first, second)
      case BackSpace =>
        RenderAll(if s.password != [] then s.(password := s.password[..|s.password| - 1]) else s, first)
      case Escape => RenderAll(s.(password := []), first)
      case MediaKey => s
      case TypeText(text) => if Fits(s, text) then RenderAll(s.(password := s.password + text), first) else s
  }

  datatype Event =
    | FrameEvent(i: nat, elapsed: bool, p: Paint)
    | ConfigureEvent(i: nat, p: Paint)
    | OutputAdded(name: nat)
    | OutputRemoved(name: nat)
    | LockedEvent
    | FinishedEvent
    | KeyEvent(key: KeyAction, first: seq<Paint>, second: seq<Paint>)
    | FingerprintEvent(first: seq<Paint>, second: seq<Paint>)
    | RepaintEvent(first: seq<Paint>)  // clock, media, notifications, fingerprint status

  /** Frame callbacks arrive only where one is pending, configures only where there is a surface. */
  predicate Enabled(s: State, e: Event) {
    match e
    case FrameEvent(i, _, _) => i < |s.outputs| && s.outputs[i].frame
    case ConfigureEvent(i, _) => i < |s.outputs| && s.outputs[i].surface
    case _ => true
  }

  function Step(s: State, e: Event): State
    requires Enabled(s, e)
  {
    match e
    case FrameEvent(i, elapsed, p) => FrameDone(s, i, elapsed, p)
    case ConfigureEvent(i, p) => Configure(s, i, p)
    case OutputAdded(name) => AddOutput(s, name)
    case OutputRemoved(name) => RemoveOutput(s, name)
    case LockedEvent => LockConfirmed(s)
    case FinishedEvent => s.(running := false)
    case KeyEvent(key, first, second) => KeyPress(s, key, first, second)
    case FingerprintEvent(first, second) => FingerprintMatch(s, first, second)
    case RepaintEvent(first) => RenderAll(s, first)
  }

  function Advance(s: State, e: Event): State { if Enabled(s, e) then Step(s, e) else s }

  /** The state after these events; what cannot happen is skipped. */
  function Run(reduced: bool, events: seq<Event>): State {
    if events == [] then Init(reduced)
    else Advance(Run(reduced, events[..|events| - 1]), events[|events| - 1])
  }
}
