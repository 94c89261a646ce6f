/** The preview pool as the program keeps it: a static array of 24 slots scanned by loops,
    and request records.  Every entry point is proved to be its step. */
module PreviewPool {
  import opened Basics
  import opened PreviewSpec

  lemma LogLog(s: State, id: nat, a: seq<Note>, b: seq<Note>)
    requires id in s.history
    ensures Log(Log(s, id, a), id, b) == Log(s, id, a + b)
  {
    assert s.history[id] + a + b == s.history[id] + (a + b);
  }

  lemma FreeBufferLog(s: State, id: nat, a: seq<Note>)
    requires id in s.requests && id in s.history
    ensures FreeBuffer(Log(s, id, a), id) == Log(FreeBuffer(s, id), id, a)
  {
  }

  class Previews {
    const slots: array<Slot>
    var requests: map<nat, Request>
    var nextRequest: nat
    var nextBuffer: nat
    var live: set<nat>
    var tokens: set<nat>
    var made: map<nat, Made>
    var history: map<nat, seq<Note>>
    var safe: bool

    ghost predicate Valid()
      reads this
    {
      slots.Length == POOL_MAX
    }

    ghost function Model(): State
      reads this, slots
    {
      State(slots[..], requests, nextRequest, nextBuffer, live, tokens, made, history, safe)
    }

    constructor ()
      ensures Valid() && Model() == INIT && fresh(slots)
    {
      requests, nextRequest, nextBuffer, live, tokens := map[], 0, 0, {}, {};
      made, history, safe := map[], map[], true;
      slots := new Slot[POOL_MAX](_ => EMPTY_SLOT);
      new;
      assert slots[..] == FreshSlots();
    }

    method Create() returns (b: nat)
      modifies this`nextBuffer, this`live
      ensures (Model(), b) == CreateBuffer(old(Model()))
    {
      b := nextBuffer;
      live := live + {b};
      nextBuffer := nextBuffer + 1;
    }

    method Destroy(b: nat)
      modifies this`live, this`safe
      ensures Model() == DestroyBuffer(old(Model()), b)
    {
      safe := safe && b in live;
      live := live - {b};
    }

    /** `preview_buffer_acquire`: first a slot of the same geometry, then any idle slot. */
    method AcquireBuffer(g: Geometry, ok: bool) returns (slot: Option<nat>)
      requires Valid()
      modifies this`nextBuffer, this`live, this`safe, slots
      ensures (Model(), slot) == Acquire(old(Model()), g, ok)
    {
      ghost var s := Model();
      for i := 0 to POOL_MAX
        invariant Model() == s && FindReusable(s.slots, g, i) == FindReusable(s.slots, g, 0)
      {
        if !slots[i].inUse && slots[i].buffer.Some? && slots[i].geometry == g {
          slots[i] := slots[i].(inUse := true);
          assert slots[..] == s.slots[i := s.slots[i].(inUse := true)];
          return Some(i);
        }
      }
      for i := 0 to POOL_MAX
        invariant Model() == s && FindIdle(s.slots, i) == FindIdle(s.slots, 0)
      {
        if slots[i].inUse { continue; }
        if slots[i].buffer.Some? {
          Destroy(slots[i].buffer.value);
          slots[i] := slots[i].(buffer := None);
        }
        assert Model() == EmptyOut(s, i);
        if !ok { return None; }
        var b := Create();
        slots[i] := Slot(Some(b), g, true);
        return Some(i);
      }
      return None;
    }

    /** `singularity_wayland_preview_pool_trim`. */
    method TrimPool()
      requires Valid()
      modifies this`live, this`safe, slots
      ensures Model() == Trim(old(Model()))
    {
      ghost var s := Model();
      for i := 0 to POOL_MAX
        invariant TrimFrom(Model(), i) == Trim(s)
      {
        if slots[i].inUse || slots[i].buffer.None? { continue; }
        Destroy(slots[i].buffer.value);
        slots[i] := EMPTY_SLOT;
      }
    }

    /** Note what happens to a capture, when `happens`. */
    method Record(id: nat, happens: bool, note: Note)
      requires id in history
      modifies this`history
      ensures Model() == Log(old(Model()), id, IfSet(happens, note))
    {
      if happens {
        history := history[id := history[id] + [note]];
      } else {
        assert history[id] + [] == history[id];
        assert history == history[id := history[id]];
      }
    }

    /** `preview_request_free_buffer`. */
    method FreeRequestBuffer(id: nat)
      requires Valid() && id in requests
      modifies this`requests, this`live, this`safe, slots
      ensures Model() == FreeBuffer(old(Model()), id)
    {
      var r := requests[id];
      if r.slot.Some? {
        if r.slot.value < POOL_MAX { slots[r.slot.value] := slots[r.slot.value].(inUse := false); }
      } else if r.buffer.Some? {
        Destroy(r.buffer.value);
      }
      requests := requests[id := r.(slot := None, buffer := None)];
    }

    method Free(id: nat)
      modifies this`requests
      ensures Model() == FreeRequest(old(Model()), id)
    {
      requests := requests - {id};
    }

    /** `frame_handle_buffer`. */
    method HandleBuffer(id: nat, g: Geometry, poolOk: bool, transientOk: bool)
      requires Valid() && id in requests && id in history
      modifies this, slots
      ensures Model() == OnBuffer(old(Model()), id, g, poolOk, transientOk)
    {
      var r := requests[id];
      var slot := AcquireBuffer(g, poolOk);
      if slot.Some? && slot.value < POOL_MAX {
        requests := requests[id := r.(slot := slot, buffer := slots[slot.value].buffer)];
      } else if transientOk {
        var b := Create();
        requests := requests[id := r.(buffer := Some(b))];
      } else {
        Fail(id, r);
      }
    }

    method Fail(id: nat, r: Request)
      requires id in history
      modifies this`history, this`requests
      ensures Model() == FreeRequest(Log(old(Model()), id,
                           IfSet(r.callback, CalledBack(false)) + IfSet(r.notify, Notified) + [FrameDestroyed, Freed]), id)
    {
      ghost var s := Model();
      ghost var cb, n := IfSet(r.callback, CalledBack(false)), IfSet(r.notify, Notified);
      Record(id, r.callback, CalledBack(false));
      Record(id, r.notify, Notified);
      LogLog(s, id, cb, n);
      Record(id, true, FrameDestroyed);
      LogLog(s, id, cb + n, [FrameDestroyed]);
      Record(id, true, Freed);
      LogLog(s, id, cb + n + [FrameDestroyed], [Freed]);
      assert cb + n + [FrameDestroyed] + [Freed] == cb + n + [FrameDestroyed, Freed];
      Free(id);
    }

    /** The notes of an ending capture around the release of its buffer. */
    method EndCapture(id: nat, delivered: bool)
      requires Valid() && id in requests && id in history
      modifies this`history, this`requests, this`live, this`safe, slots
      ensures Model() == Log(FreeBuffer(old(Model()), id), id,
                             IfSet(old(requests)[id].callback, CalledBack(delivered)) + [FrameDestroyed]
                             + IfSet(old(requests)[id].notify, Notified))
    {
      var r := requests[id];
      ghost var s := Model();
      ghost var freed := FreeBuffer(s, id);
      ghost var cb, n := IfSet(r.callback, CalledBack(delivered)), IfSet(r.notify, Notified);
      Record(id, r.callback, CalledBack(delivered));
      FreeRequestBuffer(id);
      FreeBufferLog(s, id, cb);
      Record(id, true, FrameDestroyed);
      LogLog(freed, id, cb, [FrameDestroyed]);
      Record(id, r.notify, Notified);
      LogLog(freed, id, cb + [FrameDestroyed], n);
    }

    /** `frame_handle_ready` and `frame_handle_failed`. */
    method HandleEnd(id: nat, delivered: bool)
      requires Valid() && id in requests && id in history
      modifies this, slots
      ensures Model() == OnEnd(old(Model()), id, delivered)
    {
      var r := requests[id];
      ghost var freed := FreeBuffer(Model(), id);
      ghost var notes := IfSet(r.callback, CalledBack(delivered)) + [FrameDestroyed] + IfSet(r.notify, Notified);
      EndCapture(id, delivered);
      if r.external {
        requests := requests[id := requests[id].(frame := false, notify := false, done := true)];
      } else {
        Record(id, true, Freed);
        LogLog(freed, id, notes, [Freed]);
        Free(id);
      }
    }

    method BeginHistory(id: nat, callback: bool, notify: bool)
      requires id !in history
      modifies this`history
      ensures Model() == Log(old(Model()), id, IfSet(callback, CalledBack(false)) + IfSet(notify, Notified))
    {
      ghost var s := Model();
      ghost var cb, n := IfSet(callback, CalledBack(false)), IfSet(notify, Notified);
      history := history[id := []];
      ghost var s0 := Model();
      Record(id, callback, CalledBack(false));
      Record(id, notify, Notified);
      LogLog(s0, id, cb, n);
      assert Log(s0, id, cb + n).history == s.history[id := [] + (cb + n)];
    }

    /** Both capture entry points. */
    method CapturePreview(external: bool, callback: bool, notify: bool, available: bool) returns (token: Option<nat>)
      requires Valid() && nextRequest !in history
      modifies this
      ensures Model() == Capture(old(Model()), external, callback, notify, available)
      ensures token == if external && available then Some(old(nextRequest)) else None
    {
      var id := nextRequest;
      nextRequest := nextRequest + 1;
      made := made[id := Made(external, callback, notify, available)];
      token := None;
      if !available {
        BeginHistory(id, callback, notify);
      } else {
        requests := requests[id := Request(true, None, None, callback, notify, external, false)];
        if external {
          tokens := tokens + {id};
          token := Some(id);
        }
        BeginHistory(id, false, false);
      }
    }

    /** `singularity_wayland_cancel_capture`.  A token whose request is gone, as after a starved
        capture, is a use of freed memory, and only that is recorded. */
    method CancelCapture(id: nat)
      requires Valid() && (id in requests ==> id in history)
      modifies this, slots
      ensures Model() == Cancel(old(Model()), id)
    {
      tokens := tokens - {id};
      if id !in requests {
        safe := false;
        return;
      }
      var r := requests[id];
      ghost var s := Model();
      Record(id, true, CancelCalled);
      if r.done {
        Record(id, true, Freed);
        LogLog(s, id, [CancelCalled], [Freed]);
        assert [CancelCalled] + [Freed] == [CancelCalled, Freed];
        Free(id);
      } else {
        CancelLive(id, r, s);
      }
    }

    method CancelLive(id: nat, r: Request, ghost s: State)
      requires Valid() && id in s.requests && id in s.history && r == s.requests[id]
      requires Model() == Log(s, id, [CancelCalled])
      modifies this`history, this`requests, this`live, this`safe, slots
      ensures Model() == FreeRequest(Log(FreeBuffer(s, id), id,
                           [CancelCalled] + IfSet(r.frame, FrameDestroyed) + IfSet(r.notify, Notified) + [Freed]), id)
    {
      ghost var freed := FreeBuffer(s, id);
      ghost var f, n := IfSet(r.frame, FrameDestroyed), IfSet(r.notify, Notified);
      Record(id, r.frame, FrameDestroyed);
      LogLog(s, id, [CancelCalled], f);
      FreeRequestBuffer(id);
      FreeBufferLog(s, id, [CancelCalled] + f);
      Record(id, r.notify, Notified);
      LogLog(freed, id, [CancelCalled] + f, n);
      Record(id, true, Freed);
      LogLog(freed, id, [CancelCalled] + f + n, [Freed]);
      Free(id);
    }
  }
}
