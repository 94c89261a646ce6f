/** Window preview captures of src/wayland/wayland_integration.c: a pool of 24 recyclable
    buffers with one-shot buffers as a fallback, and the lifecycle of capture requests. */
module PreviewSpec {
  import opened Basics

  const POOL_MAX := 24

  datatype Geometry = Geometry(format: nat, width: nat, height: nat, stride: nat)

  const NO_GEOMETRY := Geometry(0, 0, 0, 0)

  /** A pool slot; `buffer` names a wl_buffer together with its mapping. */
  datatype Slot = Slot(buffer: Option<nat>, geometry: Geometry, inUse: bool)

  const EMPTY_SLOT := Slot(None, NO_GEOMETRY, false)

  /** A heap-allocated capture request. */
  datatype Request = Request(
    frame: bool,            // the frame object exists
    buffer: Option<nat>,
    slot: Option<nat>,      // the pool slot the buffer belongs to
    callback: bool,         // the callback is not null
    notify: bool,           // the destroy notifier is set and has not run
    external: bool,         // a token for it was handed out
    done: bool)

  /** What happened to one capture, in order. */
  datatype Note = CalledBack(delivered: bool) | Notified | FrameDestroyed | CancelCalled | Freed

  /** How a capture was made; `started` is false when it was refused on the spot. */
  datatype Made = Made(external: bool, callback: bool, notify: bool, started: bool)

  datatype State = State(
    slots: seq<Slot>,
    requests: map<nat, Request>,
    nextRequest: nat,
    nextBuffer: nat,
    live: set<nat>,             // wl_buffers the compositor has
    tokens: set<nat>,           // tokens the client holds
    made: map<nat, Made>,
    history: map<nat, seq<Note>>,
    safe: bool)                 // no freed request was touched, no buffer destroyed twice

  function FreshSlots(): seq<Slot> { seq(POOL_MAX, _ => EMPTY_SLOT) }

  const INIT := State(FreshSlots(), map[], 0, 0, {}, {}, map[], map[], true)

  // ---------------------------------------------------------------- buffers

  function CreateBuffer(s: State): (State, nat) {
    (s.(nextBuffer := s.nextBuffer + 1, live := s.live + {s.nextBuffer}), s.nextBuffer)
  }

  function DestroyBuffer(s: State, b: nat): State {
    s.(live := s.live - {b}, safe := s.safe && b in s.live)
  }

  predicate Reusable(slot: Slot, g: Geometry) { !slot.inUse && slot.buffer.Some? && slot.geometry == g }

  function FindReusable(slots: seq<Slot>, g: Geometry, i: nat): (r: int)
    ensures -1 <= r < |slots|
    ensures r >= 0 ==> i <= r && Reusable(slots[r], g)
    ensures r < 0 ==> forall k :: i <= k < |slots| ==> !Reusable(slots[k], g)
    decreases |slots| - i
  {
    if i >= |slots| then -1 else if Reusable(slots[i], g) then i else FindReusable(slots, g, i + 1)
  }

  function FindIdle(slots: seq<Slot>, i: nat): (r: int)
    ensures -1 <= r < |slots|
    ensures r >= 0 ==> i <= r && !slots[r].inUse
    ensures r < 0 ==> forall k :: i <= k < |slots| ==> slots[k].inUse
    decreases |slots| - i
  {
    if i >= |slots| then -1 else if !slots[i].inUse then i else FindIdle(slots, i + 1)
  }

  /** Tear down the buffer of a slot, if it has one. */
  function EmptyOut(s: State, i: nat): State
    requires i < |s.slots|
  {
    match s.slots[i].buffer
    case None => s
    case Some(b) =>
      var s' := DestroyBuffer(s, b);
      s'.(slots := s'.slots[i := s'.slots[i].(buffer := None)])
  }

  /** `preview_buffer_acquire`: `ok` says whether a fresh allocation succeeds. */
  function Acquire(s: State, g: Geometry, ok: bool): (State, Option<nat>) {
    var reuse := FindReusable(s.slots, g, 0);
    if reuse >= 0 then (s.(slots := s.slots[reuse := s.slots[reuse].(inUse := true)]), Some(reuse))
    else
      var idle := FindIdle(s.slots, 0);
      if idle < 0 then (s, None)
      else
        var emptied := EmptyOut(s, idle);
        if !ok then (emptied, None)
        else
          var (created, b) := CreateBuffer(emptied);
          (created.(slots := created.slots[idle := Slot(Some(b), g, true)]), Some(idle))
  }

  /** `singularity_wayland_preview_pool_trim`. */
  function TrimFrom(s: State, i: nat): State
    decreases |s.slots| - i
  {
    if i >= |s.slots| then s
    else if s.slots[i].inUse || s.slots[i].buffer.None? then TrimFrom(s, i + 1)
    else
      var s' := DestroyBuffer(s, s.slots[i].buffer.value);
      TrimFrom(s'.(slots := s'.slots[i := EMPTY_SLOT]), i + 1)
  }

  function Trim(s: State): State { TrimFrom(s, 0) }

  // ---------------------------------------------------------------- requests

  function Log(s: State, id: nat, notes: seq<Note>): State {
    s.(history := s.history[id := (if id in s.history then s.history[id] else []) + notes])
  }

  function IfSet(happens: bool, n: Note): seq<Note> { if happens then [n] else [] }

  /** `preview_request_free_buffer`. */
  function FreeBuffer(s: State, id: nat): State
    requires id in s.requests
  {
    var r := s.requests[id];
    var freed :=
      if r.slot.Some? then
        if r.slot.value < |s.slots| then s.(slots := s.slots[r.slot.value := s.slots[r.slot.value].(inUse := false)]) else s
      else if r.buffer.Some? then DestroyBuffer(s, r.buffer.value)
      else s;
    freed.(requests := freed.requests[id := r.(slot := None, buffer := None)])
  }

  function FreeRequest(s: State, id: nat): State { s.(requests := s.requests - {id}) }

  function OnBuffer(s: State, id: nat, g: Geometry, poolOk: bool, transientOk: bool): State
    requires id in s.requests
  {
    var r := s.requests[id];
    var (s1, slot) := Acquire(s, g, poolOk);
    if slot.Some? && slot.value < |s1.slots| then
      s1.(requests := s1.requests[id := r.(slot := slot, buffer := s1.slots[slot.value].buffer)])
    else if transientOk then
      var (s2, b) := CreateBuffer(s1);
      s2.(requests := s2.requests[id := r.(buffer := Some(b))])
    else
      FreeRequest(Log(s1, id, IfSet(r.callback, CalledBack(false)) + IfSet(r.notify, Notified) + [FrameDestroyed, Freed]), id)
  }

  /** `frame_handle_ready` and `frame_handle_failed`. */
  function OnEnd(s: State, id: nat, delivered: bool): State
    requires id in s.requests
  {
    var r := s.requests[id];
    var notes := IfSet(r.callback, CalledBack(delivered)) + [FrameDestroyed] + IfSet(r.notify, Notified);
    var s1 := FreeBuffer(s, id);
    if r.external then
      Log(s1, id, notes).(requests := s1.requests[id := s1.requests[id].(frame := false, notify := false, done := true)])
    else FreeRequest(Log(s1, id, notes + [Freed]), id)
  }

  /** The two capture entry points; `available` covers all their early refusals. */
  function Capture(s: State, external: bool, callback: bool, notify: bool, available: bool): State {
    var id := s.nextRequest;
    var s1 := s.(nextRequest := id + 1, made := s.made[id := Made(external, callback, notify, available)]);
    if !available then Log(s1, id, IfSet(callback, CalledBack(false)) + IfSet(notify, Notified))
    else
      Log(s1.(requests := s1.requests[id := Request(true, None, None, callback, notify, external, false)],
              tokens := if external then s1.tokens + {id} else s1.tokens), id, [])
  }

  /** `singularity_wayland_cancel_capture`. */
  function Cancel(s: State, id: nat): State {
    var s0 := s.(tokens := s.tokens - {id});
    if id !in s0.requests then s0.(safe := false)
    else if s0.requests[id].done then FreeRequest(Log(s0, id, [CancelCalled, Freed]), id)
    else
      var r := s0.requests[id];
      var s1 := FreeBuffer(s0, id);
      FreeRequest(Log(s1, id, [CancelCalled] + IfSet(r.frame, FrameDestroyed) + IfSet(r.notify, Notified) + [Freed]), id)
  }

  datatype Event =
    | CaptureCall(external: bool, callback: bool, notify: bool, available: bool)
    | BufferEvent(id: nat, g: Geometry, poolOk: bool, transientOk: bool)
    | EndEvent(id: nat, delivered: bool)
    | CancelCall(id: nat)
    | TrimCall

  /** What can happen: events only on existing frames, at most one buffer event per frame,
      and a token is cancelled only while the client holds it. */
  predicate Enabled(s: State, e: Event) {
    match e
    case CaptureCall(_, _, _, _) => true
    case BufferEvent(id, _, _, _) => id in s.requests && s.requests[id].frame && s.requests[id].buffer.None?
    case EndEvent(id, _) => id in s.requests && s.requests[id].frame
    case CancelCall(id) => id in s.tokens
    case TrimCall => true
  }

  function Step(s: State, e: Event): State
    requires Enabled(s, e)
  {
    match e
    case CaptureCall(external, callback, notify, available) => Capture(s, external, callback, notify, available)
    case BufferEvent(id, g, poolOk, transientOk) => OnBuffer(s, id, g, poolOk, transientOk)
    case EndEvent(id, delivered) => OnEnd(s, id, delivered)
    case CancelCall(id) => Cancel(s, id)
    case TrimCall => Trim(s)
  }

  /** A buffer event that finds neither a pool buffer nor a one-shot buffer. */
  predicate Starved(s: State, e: Event) {
    e.BufferEvent? && Acquire(s, e.g, e.poolOk).1.None? && !e.transientOk
  }

  function Advance(s: State, e: Event): State { if Enabled(s, e) then Step(s, e) else s }

  predicate Runs(events: seq<Event>) {
    events == [] ||
    (Runs(events[..|events| - 1]) && Enabled(Run(events[..|events| - 1]), events[|events| - 1]))
  }

  function Run(events: seq<Event>): State {
    if events == [] then INIT
    else
      Advance(Run(events[..|events| - 1]), events[|events| - 1])
  }
}
