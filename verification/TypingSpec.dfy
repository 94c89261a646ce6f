/** The text typing scheduler of src/wayland/vkbd.c as a state machine over type calls,
    timer firings and layout changes, and what is promised of it. */
module TypingSpec {
  import opened Basics
  import opened Keyboard

  const BATCH_KEYS := 240

  datatype Job = Job(chars: seq<Char>, pos: nat)

  datatype LayoutKey = LayoutKey(code: nat, mask: Mask)

  datatype Uploaded = NothingUploaded | LayoutUploaded | CustomUploaded

  /** The user layout: its key table, its keymap, and whether the keymap could be
      serialised to text. */
  datatype UserLayout = NoLayout | Loaded(table: map<Char, LayoutKey>, keymap: Keymap, hasText: bool)

  datatype State = State(
    jobs: seq<Job>,
    timer: bool,
    batch: seq<Char>,
    runEnd: nat,
    runPending: bool,
    runInLayout: bool,
    uploaded: Uploaded,
    layout: UserLayout,
    trace: seq<Request>)

  const INIT := State([], false, [], 0, false, false, NothingUploaded, NoLayout, [])

  // ---------------------------------------------------------------- layout table

  /** One (key, level) pair considered for the layout table; earlier pairs win. */
  function AddLevel(table: map<Char, LayoutKey>, code: nat, level: Level): map<Char, LayoutKey> {
    if |level.syms| != 1 then table
    else
      var cp := CharOf(level.syms[0]);
      if cp == 0 || cp in table || level.masks == [] then table
      else table[cp := LayoutKey((code + UINT32 - 8) % UINT32, level.masks[0])]
  }

  function AddLevels(table: map<Char, LayoutKey>, code: nat, levels: seq<Level>, l: nat): map<Char, LayoutKey>
    decreases |levels| - l
  {
    if l >= |levels| then table
    else AddLevels(AddLevel(table, code, levels[l]), code, levels, l + 1)
  }

  function LastCode(km: Keymap): nat
    requires km.Layout?
  {
    if km.maxCode < 255 then km.maxCode else 255
  }

  function AddCodes(table: map<Char, LayoutKey>, km: Keymap, code: nat): map<Char, LayoutKey>
    requires km.Layout?
    decreases LastCode(km) + 1 - code
  {
    if code > LastCode(km) then table
    else AddCodes(AddLevels(table, code, LevelsOf(km, code), 0), km, code + 1)
  }

  function LayoutTable(km: Keymap): map<Char, LayoutKey>
    requires km.Layout?
  {
    AddCodes(map[], km, km.minCode)
  }

  function Newline(cp: Char): Char { if cp == CR then LF else cp }

  function FindLayoutKey(layout: UserLayout, cp: Char): Option<LayoutKey> {
    if layout.Loaded? && Newline(cp) in layout.table then Some(layout.table[Newline(cp)]) else None
  }

  // ---------------------------------------------------------------- runs

  function BatchIndex(batch: seq<Char>, cp: Char): int { IndexFrom(batch, cp, 0) }

  function LayoutRunEnd(layout: UserLayout, chars: seq<Char>, end: nat): nat
    decreases |chars| - end
  {
    if end < |chars| && FindLayoutKey(layout, chars[end]).Some? then LayoutRunEnd(layout, chars, end + 1)
    else end
  }

  /** The generated batch that starts from `batch` at position `end`, and where it stops. */
  function CollectBatch(layout: UserLayout, chars: seq<Char>, end: nat, batch: seq<Char>): (seq<Char>, nat)
    decreases |chars| - end
  {
    if end < |chars| && FindLayoutKey(layout, chars[end]).None? then
      if BatchIndex(batch, chars[end]) >= 0 then CollectBatch(layout, chars, end + 1, batch)
      else if |batch| == BATCH_KEYS then (batch, end)
      else CollectBatch(layout, chars, end + 1, batch + [chars[end]])
    else (batch, end)
  }

  function KeysymFor(cp: Char): Keysym {
    if cp == LF || cp == CR then Return else if cp == TAB then Tab else Unicode(cp)
  }

  /** The keymap generated for a batch: key `i` has keycode `i + 9`. */
  function GeneratedKeymap(batch: seq<Char>): Keymap {
    Generated(seq(|batch|, i => i + 9), seq(|batch|, i requires 0 <= i < |batch| => KeysymFor(batch[i])))
  }

  // ---------------------------------------------------------------- requests

  function Press(code: nat, mask: Mask): seq<Request> {
    [Modifiers(mask), Key(code, true), Key(code, false)] + (if mask != 0 then [Modifiers(0)] else [])
  }

  function PressChar(s: State, cp: Char): seq<Request> {
    if s.runInLayout then
      match FindLayoutKey(s.layout, cp)
      case Some(key) => Press(key.code, key.mask)
      case None => []
    else
      var index := BatchIndex(s.batch, cp);
      if index >= 0 then Press(index + 1, 0) else []
  }

  function PressChars(s: State, chars: seq<Char>, i: nat, end: nat): seq<Request>
    decreases end - i
  {
    if i >= end || i >= |chars| then []
    else PressChar(s, chars[i]) + PressChars(s, chars, i + 1, end)
  }

  // ---------------------------------------------------------------- steps

  function PressRun(s: State): State
    requires s.jobs != []
  {
    var job := s.jobs[0];
    s.(trace := s.trace + PressChars(s, job.chars, job.pos, s.runEnd),
       jobs := s.jobs[0 := job.(pos := s.runEnd)])
  }

  function Finish(s: State): State
    requires s.jobs != []
  {
    var jobs := if s.jobs[0].pos >= |s.jobs[0].chars| then s.jobs[1..] else s.jobs;
    s.(jobs := jobs, timer := jobs != [])
  }

  function Upload(s: State, km: Keymap, kind: Uploaded): State {
    s.(trace := s.trace + [SetKeymap(km), Modifiers(0)], uploaded := kind, runPending := true, timer := true)
  }

  predicate StartsLayoutRun(s: State) {
    && s.jobs != [] && !s.runPending && s.jobs[0].pos < |s.jobs[0].chars|
    && FindLayoutKey(s.layout, s.jobs[0].chars[s.jobs[0].pos]).Some? && s.layout.hasText
  }

  predicate StartsCustomRun(s: State) {
    && s.jobs != [] && !s.runPending && s.jobs[0].pos < |s.jobs[0].chars| && !StartsLayoutRun(s)
  }

  /** `run_job`: `ok` says whether a keymap upload attempted by this call succeeds. */
  function RunJob(s: State, ok: bool): State {
    if s.jobs == [] then s.(timer := false)
    else
      var job := s.jobs[0];
      if s.runPending then Finish(PressRun(s.(runPending := false)))
      else if StartsLayoutRun(s) then
        var run := s.(runEnd := LayoutRunEnd(s.layout, job.chars, job.pos), runInLayout := true);
        if s.uploaded != LayoutUploaded && ok then Upload(run, s.layout.keymap, LayoutUploaded)
        else Finish(PressRun(run))
      else if StartsCustomRun(s) then
        var (batch, end) := CollectBatch(s.layout, job.chars, job.pos, []);
        var run := s.(runInLayout := false, batch := batch, runEnd := end);
        if ok then Upload(run, GeneratedKeymap(batch), CustomUploaded)
        else Finish(run.(jobs := s.jobs[0 := job.(pos := |job.chars|)]))
      else Finish(s)
  }

  datatype Event =
    | TypeText(text: seq<Char>, connected: bool, ok: bool)
    | Timer(ok: bool)
    | SetLayout(compiled: Option<Keymap>, hasText: bool)

  predicate Accepted(e: Event) { e.TypeText? && e.text != [] && e.connected }

  function Enqueue(s: State, text: seq<Char>): State { s.(jobs := s.jobs + [Job(text, 0)]) }

  /** The state in which an event calls `run_job`, if it does. */
  function RunsFrom(s: State, e: Event): Option<State> {
    match e
    case TypeText(text, _, _) =>
      if Accepted(e) && !s.timer && s.jobs == [] then Some(Enqueue(s, text)) else None
    case Timer(_) => if s.timer then Some(s) else None
    case SetLayout(_, _) => None
  }

  function ChangeLayout(s: State, km: Keymap, hasText: bool): State
    requires km.Layout?
  {
    s.(layout := Loaded(LayoutTable(km), km, hasText),
       uploaded := if s.uploaded == LayoutUploaded then NothingUploaded else s.uploaded)
  }

  function Step(s: State, e: Event): State {
    match e
    case TypeText(text, _, ok) =>
      if !Accepted(e) then s
      else if RunsFrom(s, e).Some? then RunJob(Enqueue(s, text), ok)
      else Enqueue(s, text)
    case Timer(ok) => if s.timer then RunJob(s, ok) else s
    case SetLayout(compiled, hasText) =>
      if compiled.Some? && compiled.value.Layout? then ChangeLayout(s, compiled.value, hasText) else s
  }

  function Run(events: seq<Event>): State {
    if events == [] then INIT
    else Step(Run(events[..|events| - 1]), events[|events| - 1])
  }

  // ---------------------------------------------------------------- what is promised

  /** The text a client asked for, with carriage returns read as newlines. */
  function Read(text: seq<Char>): seq<Char> {
    seq(|text|, i requires 0 <= i < |text| => Newline(text[i]))
  }

  function Requested(events: seq<Event>): seq<Char> {
    if events == [] then [] else Requested(events[..|events| - 1]) + NewText(events[|events| - 1])
  }

  /** What a call asks to type; nothing can be typed without a virtual keyboard. */
  function NewText(e: Event): seq<Char> {
    match e
    case TypeText(text, connected, _) => if connected then text else []
    case _ => []
  }

  function JobText(job: Job): seq<Char> {
    if job.pos <= |job.chars| then Read(job.chars[job.pos..]) else []
  }

  function Remaining(jobs: seq<Job>): seq<Char> {
    if jobs == [] then [] else JobText(jobs[0]) + Remaining(jobs[1..])
  }

  function Delivered(s: State): View { Replay(FRESH_VIEW, s.trace) }

  /** What the environment must respect at one event: a compiled layout is a real layout
      keymap, the layout is not changed between the upload and the presses of a layout
      run, and an upload of the layout keymap succeeds. */
  ghost predicate Undisturbed(s: State, e: Event) {
    && (e.SetLayout? && e.compiled.Some? ==>
          e.compiled.value.Layout? && MasksSelectLevels(e.compiled.value) && !(s.runPending && s.runInLayout))
    && (RunsFrom(s, e).Some? && StartsLayoutRun(RunsFrom(s, e).value) && s.uploaded != LayoutUploaded ==> e.ok)
  }

  ghost predicate AllUndisturbed(events: seq<Event>) {
    events == [] ||
    (AllUndisturbed(events[..|events| - 1]) && Undisturbed(Run(events[..|events| - 1]), events[|events| - 1]))
  }

  /** Characters given up at one event because a generated keymap could not be uploaded. */
  function Lost(s: State, e: Event): nat {
    if RunsFrom(s, e).Some? && StartsCustomRun(RunsFrom(s, e).value) && !e.SetLayout? && !e.ok then
      var job := RunsFrom(s, e).value.jobs[0];
      |job.chars| - job.pos
    else 0
  }

  function AllLost(events: seq<Event>): nat {
    if events == [] then 0
    else AllLost(events[..|events| - 1]) + Lost(Run(events[..|events| - 1]), events[|events| - 1])
  }
}
