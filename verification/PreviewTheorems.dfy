/** What holds of the preview pool and its captures over every run: who owns which buffer, how
    many buffers exist, and what a client hears about each capture.  The invariant has two
    halves, `Pool` about slots and buffers and `Life` about requests, histories and tokens. */
module PreviewTheorems {
  import opened Basics
  import opened PreviewSpec

  // ---------------------------------------------------------------- who owns what

  ghost predicate Holds(s: State, id: nat, i: nat) { id in s.requests && s.requests[id].slot == Some(i) }

  ghost predicate InSlot(s: State, i: nat, b: nat) { i < |s.slots| && s.slots[i].buffer == Some(b) }

  ghost predicate Transient(s: State, id: nat, b: nat) {
    id in s.requests && s.requests[id].slot.None? && s.requests[id].buffer == Some(b)
  }

  /** Requests and the slots they hold agree one to one; `pinned` is a slot just taken whose
      request has not been told yet. */
  ghost predicate Owned(s: State, pinned: Option<nat>) {
    && |s.slots| == POOL_MAX
    && (forall id: nat, i: nat :: Holds(s, id, i) ==>
          i < POOL_MAX && s.slots[i].inUse && s.slots[i].buffer.Some? && s.requests[id].buffer == s.slots[i].buffer)
    && (forall id1, id2, i :: Holds(s, id1, i) && Holds(s, id2, i) ==> id1 == id2)
    && (forall i :: 0 <= i < POOL_MAX && s.slots[i].inUse && pinned != Some(i) ==> exists id :: Holds(s, id, i))
    && (pinned.Some? ==>
          pinned.value < POOL_MAX && s.slots[pinned.value].inUse && s.slots[pinned.value].buffer.Some? &&
          forall id :: !Holds(s, id, pinned.value))
  }

  /** Every live buffer is in exactly one place: a slot, or a request that owns it alone. */
  ghost predicate Placed(s: State) {
    && (forall i, j, b :: InSlot(s, i, b) && InSlot(s, j, b) ==> i == j)
    && (forall id1, id2, b :: Transient(s, id1, b) && Transient(s, id2, b) ==> id1 == id2)
    && (forall i, id, b :: InSlot(s, i, b) ==> !Transient(s, id, b))
    && (forall i, b :: InSlot(s, i, b) ==> b in s.live)
    && (forall id, b :: Transient(s, id, b) ==> b in s.live)
    && (forall b :: b in s.live ==> (exists i :: InSlot(s, i, b)) || (exists id :: Transient(s, id, b)))
    && (forall b :: b in s.live ==> b < s.nextBuffer)
  }

  ghost predicate Pool(s: State, pinned: Option<nat>) {
    && Owned(s, pinned)
    && Placed(s)
    && s.safe
  }

  /** Steps on the buffers leave the life of requests alone. */
  ghost predicate SameLives(s: State, s': State) {
    && s'.nextRequest == s.nextRequest && s'.tokens == s.tokens && s'.made == s.made && s'.history == s.history
  }

  lemma {:induction false} Same(s: State, s': State)
    requires s'.slots == s.slots && s'.requests == s.requests && s'.live == s.live
    requires s'.nextBuffer == s.nextBuffer && s'.safe == s.safe
    ensures forall pinned :: Pool(s, pinned) ==> Pool(s', pinned)
  {
    forall pinned | Pool(s, pinned) ensures Pool(s', pinned) {
      assert forall id, i :: Holds(s', id, i) <==> Holds(s, id, i);
      assert forall i, b :: InSlot(s', i, b) <==> InSlot(s, i, b);
      assert forall id, b :: Transient(s', id, b) <==> Transient(s, id, b);
    }
  }

  // ---------------------------------------------------------------- acquiring

  /** Destroying the buffer of an idle slot. */
  lemma EmptyOutKeeps(s: State, i: nat, geometry: Geometry)
    requires Pool(s, None) && i < POOL_MAX && !s.slots[i].inUse && s.slots[i].buffer.Some?
    ensures var s' := DestroyBuffer(s, s.slots[i].buffer.value);
            Pool(s'.(slots := s'.slots[i := Slot(None, geometry, false)]), None)
  {
    var b := s.slots[i].buffer.value;
    assert InSlot(s, i, b);
    var d := DestroyBuffer(s, b);
    var s' := d.(slots := d.slots[i := Slot(None, geometry, false)]);
    assert forall id, k :: Holds(s', id, k) <==> Holds(s, id, k);
    assert forall id, k :: Holds(s, id, k) ==> k != i;
    assert forall k, c :: InSlot(s', k, c) <==> InSlot(s, k, c) && k != i;
    assert forall id, c :: Transient(s', id, c) <==> Transient(s, id, c);
    forall c | c in s'.live ensures (exists k :: InSlot(s', k, c)) || (exists id :: Transient(s', id, c)) {
      if k :| InSlot(s, k, c) {
        assert InSlot(s', k, c);
      } else {
        var id :| Transient(s, id, c);
        assert Transient(s', id, c);
      }
    }
  }

  lemma FillKeeps(s: State, i: nat, g: Geometry)
    requires Pool(s, None) && i < POOL_MAX && !s.slots[i].inUse && s.slots[i].buffer.None?
    ensures var (c, b) := CreateBuffer(s);
            Pool(c.(slots := c.slots[i := Slot(Some(b), g, true)]), Some(i))
  {
    var (c, b) := CreateBuffer(s);
    var s' := c.(slots := c.slots[i := Slot(Some(b), g, true)]);
    assert forall id, k :: Holds(s', id, k) <==> Holds(s, id, k);
    assert forall id, k :: Holds(s, id, k) ==> k != i;
    assert forall k, x :: InSlot(s', k, x) <==> InSlot(s, k, x) || (k == i && x == b);
    assert forall id, x :: Transient(s', id, x) <==> Transient(s, id, x);
    forall x | x in s'.live ensures (exists k :: InSlot(s', k, x)) || (exists id :: Transient(s', id, x)) {
      if x == b {
        assert InSlot(s', i, b);
      } else if k :| InSlot(s, k, x) {
        assert InSlot(s', k, x);
      } else {
        var id :| Transient(s, id, x);
        assert Transient(s', id, x);
      }
    }
  }

  lemma ReuseKeeps(s: State, i: nat)
    requires Pool(s, None) && i < POOL_MAX && !s.slots[i].inUse && s.slots[i].buffer.Some?
    ensures Pool(s.(slots := s.slots[i := s.slots[i].(inUse := true)]), Some(i))
  {
    var s' := s.(slots := s.slots[i := s.slots[i].(inUse := true)]);
    assert forall id, k :: Holds(s', id, k) <==> Holds(s, id, k);
    assert forall k, x :: InSlot(s', k, x) <==> InSlot(s, k, x);
    assert forall id, x :: Transient(s', id, x) <==> Transient(s, id, x);
    forall x | x in s'.live ensures (exists k :: InSlot(s', k, x)) || (exists id :: Transient(s', id, x)) {
      if k :| InSlot(s, k, x) {
        assert InSlot(s', k, x);
      }
    }
  }

  /** An idle slot with its buffer torn down, if it had one. */
  lemma EmptiedKeeps(s: State, i: nat)
    requires Pool(s, None) && i < POOL_MAX && !s.slots[i].inUse
    ensures var s' := EmptyOut(s, i);
            && Pool(s', None) && !s'.slots[i].inUse && s'.slots[i].buffer.None?
            && (forall k :: 0 <= k < POOL_MAX && k != i ==> s'.slots[k] == s.slots[k])
  {
    if s.slots[i].buffer.Some? {
      EmptyOutKeeps(s, i, s.slots[i].geometry);
      assert s.slots[i].(buffer := None) == Slot(None, s.slots[i].geometry, false);
    }
  }

  lemma AcquireFrame(s: State, g: Geometry, ok: bool)
    ensures var (s', slot) := Acquire(s, g, ok);
            && SameLives(s, s') && s'.requests == s.requests && |s'.slots| == |s.slots|
            && (slot.Some? ==> slot.value < |s.slots| && s'.slots[slot.value].buffer.Some?)
  {
  }

  /** Acquiring touches idle slots only, and what it returns is a slot nobody holds. */
  lemma AcquireKeeps(s: State, g: Geometry, ok: bool)
    requires Pool(s, None)
    ensures var (s', slot) := Acquire(s, g, ok);
            && Pool(s', slot)
            && (slot.Some? ==> slot.value < POOL_MAX && s'.slots[slot.value].geometry == g)
            && (forall i :: 0 <= i < POOL_MAX && s.slots[i].inUse ==> s'.slots[i] == s.slots[i])
            && (slot.None? && ok ==> forall i :: 0 <= i < POOL_MAX ==> s.slots[i].inUse)
  {
    var reuse := FindReusable(s.slots, g, 0);
    var idle := FindIdle(s.slots, 0);
    if reuse >= 0 {
      ReuseKeeps(s, reuse);
    } else if idle >= 0 {
      EmptiedKeeps(s, idle);
      if ok {
        FillKeeps(EmptyOut(s, idle), idle, g);
      }
    }
  }

  // ---------------------------------------------------------------- giving and taking back

  function SetRequest(s: State, id: nat, r: Request): State { s.(requests := s.requests[id := r]) }

  lemma GiveSlotKeeps(s: State, id: nat, i: nat)
    requires Pool(s, Some(i)) && id in s.requests && s.requests[id].slot.None? && s.requests[id].buffer.None?
    ensures Pool(SetRequest(s, id, s.requests[id].(slot := Some(i), buffer := s.slots[i].buffer)), None)
  {
    var s' := SetRequest(s, id, s.requests[id].(slot := Some(i), buffer := s.slots[i].buffer));
    assert forall x, k :: Holds(s', x, k) <==> Holds(s, x, k) || (x == id && k == i);
    assert forall k, x :: InSlot(s', k, x) <==> InSlot(s, k, x);
    assert forall x, b :: Transient(s', x, b) <==> Transient(s, x, b);
    forall k | 0 <= k < POOL_MAX && s'.slots[k].inUse ensures exists x :: Holds(s', x, k) {
      if k == i {
        assert Holds(s', id, k);
      } else {
        var x :| Holds(s, x, k);
        assert Holds(s', x, k);
      }
    }
    PlacedSame(s, s');
  }

  lemma PlacedSame(s: State, s': State)
    requires Placed(s) && s'.live == s.live && s'.nextBuffer == s.nextBuffer
    requires forall k, x :: InSlot(s', k, x) <==> InSlot(s, k, x)
    requires forall x, b :: Transient(s', x, b) <==> Transient(s, x, b)
    ensures Placed(s')
  {
    forall x | x in s'.live ensures (exists k :: InSlot(s', k, x)) || (exists id :: Transient(s', id, x)) {
      if k :| InSlot(s, k, x) {
        assert InSlot(s', k, x);
      } else {
        var id :| Transient(s, id, x);
        assert Transient(s', id, x);
      }
    }
  }

  lemma OwnedSame(s: State, s': State)
    requires Owned(s, None) && s'.slots == s.slots
    requires forall x, k :: Holds(s', x, k) <==> Holds(s, x, k)
    requires forall x, k :: Holds(s, x, k) ==> x in s'.requests && s'.requests[x].buffer == s.requests[x].buffer
    ensures Owned(s', None)
  {
    forall k | 0 <= k < POOL_MAX && s'.slots[k].inUse ensures exists x :: Holds(s', x, k) {
      var x :| Holds(s, x, k);
      assert Holds(s', x, k);
    }
  }

  lemma GiveTransientKeeps(s: State, id: nat)
    requires Pool(s, None) && id in s.requests && s.requests[id].slot.None? && s.requests[id].buffer.None?
    ensures var (c, b) := CreateBuffer(s);
            Pool(SetRequest(c, id, s.requests[id].(buffer := Some(b))), None)
  {
    var (c, b) := CreateBuffer(s);
    var s' := SetRequest(c, id, s.requests[id].(buffer := Some(b)));
    assert forall x, k :: Holds(s', x, k) <==> Holds(s, x, k);
    OwnedSame(s, s');
    assert forall k, x :: InSlot(s', k, x) <==> InSlot(s, k, x);
    assert forall x, y :: Transient(s', x, y) <==> Transient(s, x, y) || (x == id && y == b);
    forall y | y in s'.live ensures (exists k :: InSlot(s', k, y)) || (exists x :: Transient(s', x, y)) {
      if y == b {
        assert Transient(s', id, b);
      } else if k :| InSlot(s, k, y) {
        assert InSlot(s', k, y);
      } else {
        var x :| Transient(s, x, y);
        assert Transient(s', x, y);
      }
    }
  }

  lemma ReturnSlotKeeps(s: State, id: nat, i: nat)
    requires Pool(s, None) && Holds(s, id, i)
    ensures Pool(FreeBuffer(s, id), None)
  {
    var s' := FreeBuffer(s, id);
    assert forall x, k :: Holds(s', x, k) <==> Holds(s, x, k) && x != id;
    assert forall x :: Holds(s, x, i) ==> x == id;
    assert forall k, x :: InSlot(s', k, x) <==> InSlot(s, k, x);
    assert forall x, b :: Transient(s', x, b) <==> Transient(s, x, b);
    forall k | 0 <= k < POOL_MAX && s'.slots[k].inUse ensures exists x :: Holds(s', x, k) {
      assert s.slots[k].inUse;
      var x :| Holds(s, x, k);
      assert Holds(s', x, k);
    }
    PlacedSame(s, s');
  }

  lemma ReturnTransientKeeps(s: State, id: nat, b: nat)
    requires Pool(s, None) && Transient(s, id, b)
    ensures Pool(FreeBuffer(s, id), None)
  {
    var s' := FreeBuffer(s, id);
    assert forall x, k :: Holds(s', x, k) <==> Holds(s, x, k);
    OwnedSame(s, s');
    assert forall k, x :: InSlot(s', k, x) <==> InSlot(s, k, x);
    assert forall x, y :: Transient(s', x, y) <==> Transient(s, x, y) && x != id;
    forall y | y in s'.live ensures (exists k :: InSlot(s', k, y)) || (exists x :: Transient(s', x, y)) {
      if k :| InSlot(s, k, y) {
        assert InSlot(s', k, y);
      } else {
        var x :| Transient(s, x, y);
        assert Transient(s', x, y);
      }
    }
  }

  lemma FreeBufferKeeps(s: State, id: nat)
    requires Pool(s, None) && id in s.requests
    ensures var s' := FreeBuffer(s, id);
            && Pool(s', None) && SameLives(s, s')
            && s'.requests == s.requests[id := s.requests[id].(slot := None, buffer := None)]
  {
    var r := s.requests[id];
    if r.slot.Some? {
      assert Holds(s, id, r.slot.value);
      ReturnSlotKeeps(s, id, r.slot.value);
    } else if r.buffer.Some? {
      ReturnTransientKeeps(s, id, r.buffer.value);
    } else {
      assert r.(slot := None, buffer := None) == r;
      Same(s, FreeBuffer(s, id));
    }
  }

  /** A request without a buffer can come, go and change freely. */
  lemma BarePool(s: State, s': State, id: nat)
    requires Pool(s, None)
    requires s'.slots == s.slots && s'.live == s.live && s'.nextBuffer == s.nextBuffer && s'.safe == s.safe
    requires id in s.requests ==> s.requests[id].slot.None? && s.requests[id].buffer.None?
    requires id in s'.requests ==> s'.requests[id].slot.None? && s'.requests[id].buffer.None?
    requires s'.requests - {id} == s.requests - {id}
    ensures Pool(s', None)
  {
    forall x | x != id
      ensures x in s'.requests <==> x in s.requests
      ensures x in s.requests ==> s'.requests[x] == s.requests[x]
    {
      assert x in s'.requests <==> x in s'.requests - {id};
      assert x in s.requests <==> x in s.requests - {id};
      if x in s.requests {
        assert (s'.requests - {id})[x] == (s.requests - {id})[x];
      }
    }
    assert forall x, k :: Holds(s', x, k) <==> Holds(s, x, k);
    assert forall k, x :: InSlot(s', k, x) <==> InSlot(s, k, x);
    assert forall x, b :: Transient(s', x, b) <==> Transient(s, x, b);
    OwnedSame(s, s');
    PlacedSame(s, s');
  }

  // ---------------------------------------------------------------- trimming

  /** Trimming empties the idle slots and touches no slot in use. */
  lemma {:induction false} TrimKeeps(s: State, i: nat)
    requires Pool(s, None) && i <= POOL_MAX
    requires forall k :: 0 <= k < i && !s.slots[k].inUse ==> s.slots[k].buffer.None?
    ensures var s' := TrimFrom(s, i);
            && Pool(s', None) && SameLives(s, s') && s'.requests == s.requests
            && (forall k :: 0 <= k < POOL_MAX && s.slots[k].inUse ==> s'.slots[k] == s.slots[k])
            && (forall k :: 0 <= k < POOL_MAX && !s.slots[k].inUse ==> !s'.slots[k].inUse && s'.slots[k].buffer.None?)
    decreases POOL_MAX - i
  {
    if i < POOL_MAX {
      if s.slots[i].inUse || s.slots[i].buffer.None? {
        TrimKeeps(s, i + 1);
      } else {
        EmptyOutKeeps(s, i, NO_GEOMETRY);
        var d := DestroyBuffer(s, s.slots[i].buffer.value);
        TrimKeeps(d.(slots := d.slots[i := EMPTY_SLOT]), i + 1);
      }
    }
  }

  // ---------------------------------------------------------------- the life of a capture

  function EndNotes(m: Made, delivered: bool): seq<Note> {
    IfSet(m.callback, CalledBack(delivered)) + [FrameDestroyed] + IfSet(m.notify, Notified)
  }

  function RefusedNotes(m: Made): seq<Note> { IfSet(m.callback, CalledBack(false)) + IfSet(m.notify, Notified) }

  function StarvedNotes(m: Made): seq<Note> { RefusedNotes(m) + [FrameDestroyed, Freed] }

  function CancelNotes(m: Made): seq<Note> { [CancelCalled, FrameDestroyed] + IfSet(m.notify, Notified) + [Freed] }

  ghost predicate Ended(m: Made, h: seq<Note>) { h == EndNotes(m, true) || h == EndNotes(m, false) }

  /** Everything that can have happened to a capture whose request is gone. */
  ghost predicate Over(m: Made, h: seq<Note>) {
    if !m.started then h == RefusedNotes(m)
    else
      || h == StarvedNotes(m)
      || (!m.external && (h == EndNotes(m, true) + [Freed] || h == EndNotes(m, false) + [Freed]))
      || (m.external && (h == EndNotes(m, true) + [CancelCalled, Freed] || h == EndNotes(m, false) + [CancelCalled, Freed]))
      || (m.external && h == CancelNotes(m))
  }

  /** A request and its history agree. */
  ghost predicate Lives(r: Request, m: Made, h: seq<Note>) {
    && m.started && r.external == m.external && r.callback == m.callback
    && (if r.done then r.external && !r.frame && !r.notify && r.slot.None? && r.buffer.None? && Ended(m, h)
        else r.frame && r.notify == m.notify && h == [])
    && (r.slot.Some? ==> r.buffer.Some?)
  }

  ghost predicate Life(s: State) {
    && (forall id: nat :: id in s.made <==> id < s.nextRequest)
    && s.history.Keys == s.made.Keys && s.requests.Keys <= s.made.Keys
    && (forall id :: id in s.requests ==> Lives(s.requests[id], s.made[id], s.history[id]))
    && (forall id :: id in s.made && id !in s.requests ==> Over(s.made[id], s.history[id]))
    && (forall id :: id in s.requests && s.requests[id].external ==> id in s.tokens)
    && (forall id :: id in s.tokens ==> id in s.made && s.made[id].external && s.made[id].started)
  }

  /** No token outlives its request. */
  ghost predicate TokensLive(s: State) { s.tokens <= s.requests.Keys }

  ghost predicate Sound(s: State) {
    && Pool(s, None)
    && Life(s)
  }

  ghost predicate Good(s: State) {
    && Sound(s)
    && TokensLive(s)
  }

  lemma SameLife(s: State, s': State)
    requires Life(s) && SameLives(s, s') && s'.requests == s.requests
    ensures Life(s')
  {
  }

  /** `s'` differs from `s` in one capture only. */
  ghost predicate OnlyAt(s: State, s': State, id: nat) {
    && (forall x :: x != id ==> (x in s'.requests <==> x in s.requests))
    && (forall x :: x != id && x in s.requests ==> s'.requests[x] == s.requests[x])
    && (forall x :: x != id ==> (x in s'.tokens <==> x in s.tokens))
  }

  lemma LifeAt(s: State, s': State, id: nat, h: seq<Note>)
    requires Life(s) && OnlyAt(s, s', id)
    requires s'.nextRequest == s.nextRequest && s'.made == s.made && id in s.made && s'.history == s.history[id := h]
    requires id in s'.requests ==> Lives(s'.requests[id], s.made[id], h) && (s.made[id].external ==> id in s'.tokens)
    requires id !in s'.requests ==> Over(s.made[id], h)
    requires id in s'.tokens ==> id in s.tokens
    ensures Life(s')
  {
  }

  lemma LifeNew(s: State, s': State, m: Made, h: seq<Note>)
    requires Life(s) && OnlyAt(s, s', s.nextRequest)
    requires s'.nextRequest == s.nextRequest + 1
    requires s'.made == s.made[s.nextRequest := m] && s'.history == s.history[s.nextRequest := h]
    requires var id := s.nextRequest;
             if m.started then id in s'.requests && Lives(s'.requests[id], m, h) && (id in s'.tokens <==> m.external)
             else id !in s'.requests && Over(m, h) && id !in s'.tokens
    ensures Life(s')
  {
    assert s.nextRequest !in s.made;
  }

  lemma RefusedLife(s: State, external: bool, callback: bool, notify: bool)
    requires Life(s)
    ensures var s' := Capture(s, external, callback, notify, false);
            Life(s') && s'.tokens == s.tokens && s'.requests == s.requests
  {
    var s' := Capture(s, external, callback, notify, false);
    var m := Made(external, callback, notify, false);
    assert s.nextRequest !in s.made && s.nextRequest !in s.history;
    assert [] + RefusedNotes(m) == RefusedNotes(m);
    assert s'.history == s.history[s.nextRequest := RefusedNotes(m)];
    assert s.nextRequest !in s.requests;
    LifeNew(s, s', m, RefusedNotes(m));
  }

  lemma StartedLife(s: State, external: bool, callback: bool, notify: bool)
    requires Life(s)
    ensures var s' := Capture(s, external, callback, notify, true);
            Life(s') && s'.requests.Keys == s.requests.Keys + {s.nextRequest} && s'.tokens <= s.tokens + {s.nextRequest}
  {
    var s' := Capture(s, external, callback, notify, true);
    var m := Made(external, callback, notify, true);
    assert s.nextRequest !in s.made && s.nextRequest !in s.history;
    var none: seq<Note> := [];
    assert none + none == none;
    assert s'.history == s.history[s.nextRequest := none];
    LifeNew(s, s', m, none);
  }

  lemma CaptureLife(s: State, external: bool, callback: bool, notify: bool, available: bool)
    requires Life(s)
    ensures Life(Capture(s, external, callback, notify, available))
    ensures TokensLive(s) ==> TokensLive(Capture(s, external, callback, notify, available))
  {
    if available {
      StartedLife(s, external, callback, notify);
    } else {
      RefusedLife(s, external, callback, notify);
    }
  }

  lemma CapturePool(s: State, external: bool, callback: bool, notify: bool, available: bool)
    requires Pool(s, None) && s.nextRequest !in s.requests
    ensures Pool(Capture(s, external, callback, notify, available), None)
  {
    var s' := Capture(s, external, callback, notify, available);
    assert s'.requests - {s.nextRequest} == s.requests - {s.nextRequest};
    BarePool(s, s', s.nextRequest);
  }

  lemma BufferPool(s: State, id: nat, g: Geometry, poolOk: bool, transientOk: bool)
    requires Pool(s, None) && id in s.requests && s.requests[id].slot.None? && s.requests[id].buffer.None?
    ensures Pool(OnBuffer(s, id, g, poolOk, transientOk), None)
  {
    AcquireKeeps(s, g, poolOk);
    AcquireFrame(s, g, poolOk);
    var (s1, slot) := Acquire(s, g, poolOk);
    if slot.Some? {
      GiveSlotKeeps(s1, id, slot.value);
    } else if transientOk {
      GiveTransientKeeps(s1, id);
    } else {
      var s' := OnBuffer(s, id, g, poolOk, transientOk);
      assert s'.requests - {id} == s1.requests - {id};
      BarePool(s1, s', id);
    }
  }

  lemma FedLife(s: State, id: nat, g: Geometry, poolOk: bool, transientOk: bool)
    requires Life(s) && id in s.requests && s.requests[id].frame && s.requests[id].slot.None?
    requires Acquire(s, g, poolOk).1.Some? || transientOk
    ensures var s' := OnBuffer(s, id, g, poolOk, transientOk);
            Life(s') && s'.tokens == s.tokens && s'.requests.Keys == s.requests.Keys
  {
    var s' := OnBuffer(s, id, g, poolOk, transientOk);
    assert Lives(s.requests[id], s.made[id], s.history[id]);
    AcquireFrame(s, g, poolOk);
    assert s.history[id := s.history[id]] == s.history;
    LifeAt(s, s', id, s.history[id]);
  }

  lemma StarvedLife(s: State, id: nat, g: Geometry, poolOk: bool)
    requires Life(s) && id in s.requests && s.requests[id].frame
    requires Acquire(s, g, poolOk).1.None?
    ensures var s' := OnBuffer(s, id, g, poolOk, false);
            Life(s') && s'.tokens == s.tokens && s'.requests.Keys == s.requests.Keys - {id}
  {
    var r, m := s.requests[id], s.made[id];
    assert Lives(r, m, s.history[id]);
    AcquireFrame(s, g, poolOk);
    var notes := IfSet(r.callback, CalledBack(false)) + IfSet(r.notify, Notified) + [FrameDestroyed, Freed];
    assert [] + notes == StarvedNotes(m);
    LifeAt(s, OnBuffer(s, id, g, poolOk, false), id, StarvedNotes(m));
  }

  lemma FreeBufferFrame(s: State, id: nat)
    requires id in s.requests
    ensures var s' := FreeBuffer(s, id);
            SameLives(s, s') && s'.requests == s.requests[id := s.requests[id].(slot := None, buffer := None)]
  {
  }

  lemma EndLife(s: State, id: nat, delivered: bool)
    requires Life(s) && id in s.requests && s.requests[id].frame
    ensures Life(OnEnd(s, id, delivered))
    ensures TokensLive(s) ==> TokensLive(OnEnd(s, id, delivered))
  {
    var m := s.made[id];
    assert Lives(s.requests[id], m, s.history[id]);
    FreeBufferFrame(s, id);
    var s' := OnEnd(s, id, delivered);
    assert [] + EndNotes(m, delivered) == EndNotes(m, delivered);
    assert [] + (EndNotes(m, delivered) + [Freed]) == EndNotes(m, delivered) + [Freed];
    var h := if m.external then EndNotes(m, delivered) else EndNotes(m, delivered) + [Freed];
    assert s'.history == s.history[id := h];
    LifeAt(s, s', id, h);
  }

  lemma EndPool(s: State, id: nat, delivered: bool)
    requires Pool(s, None) && id in s.requests
    ensures Pool(OnEnd(s, id, delivered), None)
  {
    FreeBufferKeeps(s, id);
    var s1, s' := FreeBuffer(s, id), OnEnd(s, id, delivered);
    assert s'.requests - {id} == s1.requests - {id};
    BarePool(s1, s', id);
  }

  lemma CancelDoneLife(s: State, id: nat)
    requires Life(s) && id in s.tokens && id in s.requests && s.requests[id].done
    ensures Life(Cancel(s, id)) && Cancel(s, id).requests.Keys == s.requests.Keys - {id}
  {
    var s' := Cancel(s, id);
    var h := s.history[id] + [CancelCalled, Freed];
    assert Lives(s.requests[id], s.made[id], s.history[id]);
    assert s'.history == s.history[id := h];
    LifeAt(s, s', id, h);
  }

  lemma CancelLiveResult(s: State, id: nat)
    requires id in s.requests && !s.requests[id].done && s.requests[id].frame && id in s.history && s.history[id] == []
    ensures var s', m := Cancel(s, id), Made(true, false, s.requests[id].notify, true);
            && s'.nextRequest == s.nextRequest && s'.made == s.made && s'.tokens == s.tokens - {id}
            && s'.history == s.history[id := CancelNotes(m)] && s'.requests == s.requests - {id}
  {
    var r := s.requests[id];
    var s0 := s.(tokens := s.tokens - {id});
    FreeBufferFrame(s0, id);
    var notes := [CancelCalled] + IfSet(true, FrameDestroyed) + IfSet(r.notify, Notified) + [Freed];
    assert [] + notes == CancelNotes(Made(true, false, r.notify, true));
    assert FreeBuffer(s0, id).requests - {id} == s.requests - {id};
  }

  lemma CancelLiveLife(s: State, id: nat)
    requires Life(s) && id in s.tokens && id in s.requests && !s.requests[id].done
    ensures Life(Cancel(s, id)) && Cancel(s, id).requests.Keys == s.requests.Keys - {id}
  {
    assert Lives(s.requests[id], s.made[id], s.history[id]);
    CancelLiveResult(s, id);
    LifeAt(s, Cancel(s, id), id, CancelNotes(s.made[id]));
  }

  lemma CancelLife(s: State, id: nat)
    requires Life(s) && id in s.tokens && id in s.requests
    ensures Life(Cancel(s, id))
    ensures TokensLive(s) ==> TokensLive(Cancel(s, id))
  {
    if s.requests[id].done {
      CancelDoneLife(s, id);
    } else {
      CancelLiveLife(s, id);
    }
    assert Cancel(s, id).tokens == s.tokens - {id};
  }

  lemma CancelPool(s: State, id: nat)
    requires Pool(s, None) && id in s.requests
    requires s.requests[id].done ==> s.requests[id].slot.None? && s.requests[id].buffer.None?
    ensures Pool(Cancel(s, id), None)
  {
    var s0, s' := s.(tokens := s.tokens - {id}), Cancel(s, id);
    Same(s, s0);
    if s.requests[id].done {
      assert s'.requests - {id} == s0.requests - {id};
      BarePool(s0, s', id);
    } else {
      FreeBufferKeeps(s0, id);
      var s1 := FreeBuffer(s0, id);
      assert s'.requests - {id} == s1.requests - {id};
      BarePool(s1, s', id);
    }
  }

  lemma BufferLife(s: State, id: nat, g: Geometry, poolOk: bool, transientOk: bool)
    requires Life(s) && id in s.requests && s.requests[id].frame && s.requests[id].slot.None?
    ensures var s', starved := OnBuffer(s, id, g, poolOk, transientOk), Acquire(s, g, poolOk).1.None? && !transientOk;
            Life(s') && (TokensLive(s) ==> (TokensLive(s') <==> !(starved && s.requests[id].external)))
  {
    var r := s.requests[id];
    assert Lives(r, s.made[id], s.history[id]);
    if Acquire(s, g, poolOk).1.None? && !transientOk {
      StarvedLife(s, id, g, poolOk);
      assert r.external <==> id in s.tokens;
    } else {
      FedLife(s, id, g, poolOk, transientOk);
    }
  }

  /** A token is cancelled whose request is gone. */
  predicate DeadCancel(s: State, e: Event) { e.CancelCall? && e.id !in s.requests }

  /** Every step but the cancelling of a dead token keeps ownership, conservation and the order
      of notifications; while tokens are live, it leaves the client with a dead one exactly when
      a cancellable capture is starved of memory. */
  lemma StepKeeps(s: State, e: Event)
    requires Sound(s) && Enabled(s, e) && !DeadCancel(s, e)
    ensures Sound(Step(s, e))
    ensures TokensLive(s) ==> (TokensLive(Step(s, e)) <==> !(Starved(s, e) && s.requests[e.id].external))
  {
    match e
    case CaptureCall(external, callback, notify, available) =>
      CapturePool(s, external, callback, notify, available);
      CaptureLife(s, external, callback, notify, available);
    case BufferEvent(id, g, poolOk, transientOk) =>
      BufferPool(s, id, g, poolOk, transientOk);
      BufferLife(s, id, g, poolOk, transientOk);
    case EndEvent(id, delivered) =>
      EndPool(s, id, delivered);
      EndLife(s, id, delivered);
    case CancelCall(id) =>
      assert Lives(s.requests[id], s.made[id], s.history[id]);
      CancelPool(s, id);
      CancelLife(s, id);
    case TrimCall =>
      TrimKeeps(s, 0);
      SameLife(s, Trim(s));
  }

  /** No cancellable capture is starved of memory during the run. */
  ghost predicate Fed(events: seq<Event>) {
    events == [] ||
    (var s, e := Run(events[..|events| - 1]), events[|events| - 1];
     && Fed(events[..|events| - 1])
     && (Starved(s, e) && e.id in s.requests ==> !s.requests[e.id].external))
  }

  lemma InitGood()
    ensures Good(INIT)
  {
    assert forall i :: 0 <= i < POOL_MAX ==> INIT.slots[i] == EMPTY_SLOT;
  }

  lemma {:induction false} RunsAreGood(events: seq<Event>)
    requires Runs(events) && Fed(events)
    ensures Good(Run(events))
    decreases |events|
  {
    if events == [] {
      InitGood();
    } else {
      var before, e := events[..|events| - 1], events[|events| - 1];
      RunsAreGood(before);
      StepKeeps(Run(before), e);
    }
  }

  // ---------------------------------------------------------------- safe runs

  /** No token whose request is gone is cancelled during the run. */
  ghost predicate CancelsLive(events: seq<Event>) {
    events == [] ||
    (CancelsLive(events[..|events| - 1]) && !DeadCancel(Run(events[..|events| - 1]), events[|events| - 1]))
  }

  lemma {:induction false} TrimStaysUnsafe(s: State, i: nat)
    requires !s.safe
    ensures !TrimFrom(s, i).safe
    decreases |s.slots| - i
  {
    if i < |s.slots| {
      if s.slots[i].inUse || s.slots[i].buffer.None? {
        TrimStaysUnsafe(s, i + 1);
      } else {
        var s' := DestroyBuffer(s, s.slots[i].buffer.value);
        TrimStaysUnsafe(s'.(slots := s'.slots[i := EMPTY_SLOT]), i + 1);
      }
    }
  }

  lemma StaysUnsafe(s: State, e: Event)
    requires !s.safe && Enabled(s, e)
    ensures !Step(s, e).safe
  {
    TrimStaysUnsafe(s, 0);
  }

  /** A run touches only memory it owns exactly when it cancels no dead token, and then the
      invariant holds; nothing else is asked of it. */
  lemma {:induction false} SafeExactly(events: seq<Event>)
    requires Runs(events)
    ensures Run(events).safe <==> CancelsLive(events)
    ensures CancelsLive(events) ==> Sound(Run(events))
    decreases |events|
  {
    if events == [] {
      InitGood();
    } else {
      var before, e := events[..|events| - 1], events[|events| - 1];
      SafeExactly(before);
      var s := Run(before);
      if !s.safe {
        StaysUnsafe(s, e);
      } else if !DeadCancel(s, e) {
        StepKeeps(s, e);
      }
    }
  }

  /** Runs in which no cancellable capture is starved cancel no dead token. */
  lemma {:induction false} FedCancelsLive(events: seq<Event>)
    requires Runs(events) && Fed(events)
    ensures CancelsLive(events)
    decreases |events|
  {
    if events != [] {
      FedCancelsLive(events[..|events| - 1]);
      RunsAreGood(events[..|events| - 1]);
    }
  }

  // ---------------------------------------------------------------- the promises

  /** Over every run that cancels no dead token each in-use slot belongs to exactly one request,
      no two requests share a buffer, and no freed request or dead buffer is ever touched. */
  lemma OwnershipHolds(events: seq<Event>)
    requires Runs(events) && CancelsLive(events)
    ensures var s := Run(events);
            && s.safe && |s.slots| == 24
            && (forall i :: 0 <= i < 24 && s.slots[i].inUse ==> exists id :: Holds(s, id, i))
            && (forall i, x, y :: Holds(s, x, i) && Holds(s, y, i) ==> x == y)
            && (forall x, y :: x in s.requests && y in s.requests && x != y && s.requests[x].buffer.Some? ==>
                  s.requests[x].buffer != s.requests[y].buffer)
  {
    SafeExactly(events);
    var s := Run(events);
    forall x, y | x in s.requests && y in s.requests && x != y && s.requests[x].buffer.Some?
      ensures s.requests[x].buffer != s.requests[y].buffer
    {
      BuffersApart(s, x, y);
    }
  }

  lemma BuffersApart(s: State, x: nat, y: nat)
    requires Sound(s) && x in s.requests && y in s.requests && x != y && s.requests[x].buffer.Some?
    ensures s.requests[x].buffer != s.requests[y].buffer
  {
    var b := s.requests[x].buffer.value;
    if s.requests[x].slot.Some? { assert Holds(s, x, s.requests[x].slot.value) && InSlot(s, s.requests[x].slot.value, b); }
    else { assert Transient(s, x, b); }
    if s.requests[y].buffer == Some(b) {
      if s.requests[y].slot.Some? { assert Holds(s, y, s.requests[y].slot.value) && InSlot(s, s.requests[y].slot.value, b); }
      else { assert Transient(s, y, b); }
    }
  }

  function Filled(slots: seq<Slot>): set<nat> {
    if slots == [] then {}
    else
      var rest := Filled(slots[..|slots| - 1]);
      match slots[|slots| - 1].buffer
      case Some(b) => rest + {b}
      case None => rest
  }

  function FilledCount(slots: seq<Slot>): nat {
    if slots == [] then 0
    else FilledCount(slots[..|slots| - 1]) + (if slots[|slots| - 1].buffer.Some? then 1 else 0)
  }

  lemma {:induction false} FilledSpec(slots: seq<Slot>)
    requires forall i, j :: 0 <= i < j < |slots| && slots[i].buffer.Some? ==> slots[i].buffer != slots[j].buffer
    ensures |Filled(slots)| == FilledCount(slots) <= |slots|
    ensures forall b :: b in Filled(slots) <==> exists i :: 0 <= i < |slots| && slots[i].buffer == Some(b)
    decreases |slots|
  {
    if slots != [] {
      var n := |slots| - 1;
      var init := slots[..n];
      FilledSpec(init);
      forall b ensures b in Filled(slots) <==> exists i :: 0 <= i < |slots| && slots[i].buffer == Some(b) {
        if i :| 0 <= i < |init| && init[i].buffer == Some(b) { assert slots[i].buffer == Some(b); }
        if i :| 0 <= i < |slots| && slots[i].buffer == Some(b) { assert i < n ==> init[i].buffer == Some(b); }
      }
      if slots[n].buffer.Some? {
        forall i | 0 <= i < n ensures init[i].buffer != slots[n].buffer {
          assert init[i].buffer == slots[i].buffer;
        }
        assert slots[n].buffer.value !in Filled(init);
      }
    }
  }

  /** Buffers owned by requests alone. */
  function Transients(requests: map<nat, Request>): set<nat> {
    set id | id in requests && requests[id].slot.None? && requests[id].buffer.Some? :: requests[id].buffer.value
  }

  /** Requests that own their buffer alone. */
  function TransientOwners(requests: map<nat, Request>): set<nat> {
    set id | id in requests && requests[id].slot.None? && requests[id].buffer.Some?
  }

  lemma {:induction false} OneBufferEach(owners: set<nat>, requests: map<nat, Request>)
    requires owners <= TransientOwners(requests)
    requires forall x, y :: x in owners && y in owners && requests[x].buffer == requests[y].buffer ==> x == y
    ensures |set id | id in owners :: requests[id].buffer.value| == |owners|
    decreases owners
  {
    var image := set id | id in owners :: requests[id].buffer.value;
    if owners == {} {
      assert image == {};
    } else {
      var id :| id in owners;
      var rest := owners - {id};
      OneBufferEach(rest, requests);
      var restImage := set x | x in rest :: requests[x].buffer.value;
      assert requests[id].buffer.value !in restImage;
      assert image == restImage + {requests[id].buffer.value};
    }
  }

  lemma SlotBuffersApart(s: State)
    requires Sound(s)
    ensures forall i, j :: 0 <= i < j < |s.slots| && s.slots[i].buffer.Some? ==> s.slots[i].buffer != s.slots[j].buffer
  {
    forall i, j | 0 <= i < j < |s.slots| && s.slots[i].buffer.Some? ensures s.slots[i].buffer != s.slots[j].buffer {
      var b := s.slots[i].buffer.value;
      assert InSlot(s, i, b);
      assert !InSlot(s, j, b);
    }
  }

  lemma TransientBuffersApart(s: State)
    requires Sound(s)
    ensures |Transients(s.requests)| == |TransientOwners(s.requests)|
  {
    var owners := TransientOwners(s.requests);
    forall x, y | x in owners && y in owners && s.requests[x].buffer == s.requests[y].buffer ensures x == y {
      assert Transient(s, x, s.requests[x].buffer.value) && Transient(s, y, s.requests[x].buffer.value);
    }
    OneBufferEach(owners, s.requests);
    assert Transients(s.requests) == set id | id in owners :: s.requests[id].buffer.value;
  }

  lemma SlotPlaces(s: State, b: nat)
    requires Sound(s)
    ensures b in Filled(s.slots) <==> exists i :: InSlot(s, i, b)
    ensures |Filled(s.slots)| == FilledCount(s.slots) <= POOL_MAX
  {
    SlotBuffersApart(s);
    FilledSpec(s.slots);
    if i :| 0 <= i < |s.slots| && s.slots[i].buffer == Some(b) {
      assert InSlot(s, i, b);
    }
  }

  lemma TransientPlaces(s: State, b: nat)
    ensures b in Transients(s.requests) <==> exists id :: Transient(s, id, b)
  {
    if id :| Transient(s, id, b) {
      assert id in s.requests && s.requests[id].buffer.value == b;
    }
    if id :| id in s.requests && s.requests[id].slot.None? && s.requests[id].buffer == Some(b) {
      assert Transient(s, id, b);
    }
  }

  lemma LivePlaces(s: State, b: nat)
    requires Sound(s)
    ensures b in s.live <==> b in Filled(s.slots) || b in Transients(s.requests)
    ensures b in Filled(s.slots) ==> b !in Transients(s.requests)
  {
    SlotPlaces(s, b);
    TransientPlaces(s, b);
  }

  lemma DisjointUnion(live: set<nat>, a: set<nat>, b: set<nat>)
    requires forall x: nat :: (x in live <==> x in a || x in b) && (x in a ==> x !in b)
    ensures |live| == |a| + |b|
  {
    assert live == a + b && a !! b;
  }

  /** Live buffers are exactly the filled slots, at most 24, plus the one-shot buffers in flight. */
  lemma BuffersConserved(s: State)
    requires Sound(s)
    ensures |s.live| == FilledCount(s.slots) + |TransientOwners(s.requests)|
    ensures FilledCount(s.slots) <= 24
  {
    SlotPlaces(s, 0);
    TransientBuffersApart(s);
    forall x: nat
      ensures (x in s.live <==> x in Filled(s.slots) || x in Transients(s.requests)) &&
              (x in Filled(s.slots) ==> x !in Transients(s.requests))
    {
      LivePlaces(s, x);
    }
    DisjointUnion(s.live, Filled(s.slots), Transients(s.requests));
  }

  /** Once every capture has ended or been cancelled, a trim leaves no buffer behind. */
  lemma TrimLeavesNothing(s: State)
    requires Sound(s) && forall id :: id in s.requests ==> !s.requests[id].frame
    ensures Trim(s).live == {}
  {
    TrimKeeps(s, 0);
    var s' := Trim(s);
    forall id | id in s'.requests ensures s'.requests[id].slot.None? && s'.requests[id].buffer.None? {
      assert Lives(s.requests[id], s.made[id], s.history[id]);
    }
    assert forall id, i :: !Holds(s', id, i);
    assert forall i, b :: !InSlot(s', i, b);
    assert forall id, b :: !Transient(s', id, b);
  }

  // ---------------------------------------------------------------- exactly once

  function CountOf(h: seq<Note>, n: Note): nat {
    if h == [] then 0 else (if h[0] == n then 1 else 0) + CountOf(h[1..], n)
  }

  function Times(b: bool): nat { if b then 1 else 0 }

  lemma {:induction false} CountConcat(a: seq<Note>, b: seq<Note>, n: Note)
    ensures CountOf(a + b, n) == CountOf(a, n) + CountOf(b, n)
    decreases |a|
  {
    if a == [] {
      assert a + b == b;
    } else {
      assert (a + b)[1..] == a[1..] + b;
      CountConcat(a[1..], b, n);
    }
  }

  lemma CountIf(happens: bool, m: Note, n: Note)
    ensures CountOf(IfSet(happens, m), n) == Times(happens && m == n)
  {
  }

  lemma CountPair(x: Note, y: Note, n: Note)
    ensures CountOf([x, y], n) == Times(x == n) + Times(y == n)
  {
    CountConcat([x], [y], n);
    assert [x] + [y] == [x, y];
  }

  lemma CountEnd(m: Made, delivered: bool, n: Note)
    ensures CountOf(EndNotes(m, delivered), n) ==
            Times(m.callback && n == CalledBack(delivered)) + Times(n == FrameDestroyed) + Times(m.notify && n == Notified)
  {
    var cb := IfSet(m.callback, CalledBack(delivered));
    CountConcat(cb + [FrameDestroyed], IfSet(m.notify, Notified), n);
    CountConcat(cb, [FrameDestroyed], n);
    CountIf(m.callback, CalledBack(delivered), n);
    CountIf(m.notify, Notified, n);
  }

  lemma CountRefused(m: Made, n: Note)
    ensures CountOf(RefusedNotes(m), n) == Times(m.callback && n == CalledBack(false)) + Times(m.notify && n == Notified)
  {
    CountConcat(IfSet(m.callback, CalledBack(false)), IfSet(m.notify, Notified), n);
    CountIf(m.callback, CalledBack(false), n);
    CountIf(m.notify, Notified, n);
  }

  lemma CountCancel(m: Made, n: Note)
    ensures CountOf(CancelNotes(m), n) ==
            Times(n == CancelCalled) + Times(n == FrameDestroyed) + Times(m.notify && n == Notified) + Times(n == Freed)
  {
    var head := [CancelCalled, FrameDestroyed];
    CountConcat(head + IfSet(m.notify, Notified), [Freed], n);
    CountConcat(head, IfSet(m.notify, Notified), n);
    CountPair(CancelCalled, FrameDestroyed, n);
    CountIf(m.notify, Notified, n);
  }

  /** How often each thing happened to a capture that is over. */
  lemma OverCounts(m: Made, h: seq<Note>, n: Note)
    requires Over(m, h)
    ensures n == Notified ==> CountOf(h, n) == Times(m.notify)
    ensures n == FrameDestroyed || n == Freed ==> CountOf(h, n) == Times(m.started)
    ensures n == CancelCalled ==> CountOf(h, n) <= 1
  {
    CountRefused(m, n);
    CountEnd(m, true, n);
    CountEnd(m, false, n);
    CountCancel(m, n);
    CountConcat(RefusedNotes(m), [FrameDestroyed, Freed], n);
    CountPair(FrameDestroyed, Freed, n);
    CountPair(CancelCalled, Freed, n);
    CountConcat(EndNotes(m, true), [Freed], n);
    CountConcat(EndNotes(m, false), [Freed], n);
    CountConcat(EndNotes(m, true), [CancelCalled, Freed], n);
    CountConcat(EndNotes(m, false), [CancelCalled, Freed], n);
  }

  /** A callback, if there is one, comes first. */
  ghost predicate CallbackFirst(m: Made, h: seq<Note>) {
    && (forall j :: 0 < j < |h| ==> !h[j].CalledBack?)
    && (h != [] && h[0].CalledBack? ==> m.callback)
    && (m.callback && !(h != [] && h[0].CalledBack?) ==> h == [] || h[0] == CancelCalled)
  }

  lemma EndOrder(m: Made, delivered: bool, tail: seq<Note>)
    requires forall k :: 0 <= k < |tail| ==> !tail[k].CalledBack?
    ensures var h := EndNotes(m, delivered) + tail;
            h != [] && (forall j :: 0 < j < |h| ==> !h[j].CalledBack?) && (h[0].CalledBack? <==> m.callback)
  {
  }

  lemma RefusedOrder(m: Made, tail: seq<Note>)
    requires forall k :: 0 <= k < |tail| ==> !tail[k].CalledBack?
    ensures var h := RefusedNotes(m) + tail;
            (forall j :: 0 < j < |h| ==> !h[j].CalledBack?) && (m.callback <==> h != [] && h[0].CalledBack?)
  {
  }

  lemma EndedOrder(m: Made, h: seq<Note>, delivered: bool)
    requires h == EndNotes(m, delivered) || h == EndNotes(m, delivered) + [Freed] || h == EndNotes(m, delivered) + [CancelCalled, Freed]
    ensures CallbackFirst(m, h) && (m.callback <==> h != [] && h[0].CalledBack?)
  {
    EndOrder(m, delivered, []);
    EndOrder(m, delivered, [Freed]);
    EndOrder(m, delivered, [CancelCalled, Freed]);
    assert EndNotes(m, delivered) + [] == EndNotes(m, delivered);
  }

  lemma OverOrder(m: Made, h: seq<Note>)
    requires Over(m, h) || Ended(m, h) || h == []
    ensures CallbackFirst(m, h)
    ensures Over(m, h) && !m.external ==> (m.callback <==> h != [] && h[0].CalledBack?)
  {
    RefusedOrder(m, []);
    RefusedOrder(m, [FrameDestroyed, Freed]);
    assert RefusedNotes(m) + [] == RefusedNotes(m);
    if delivered :| h == EndNotes(m, delivered) || h == EndNotes(m, delivered) + [Freed] || h == EndNotes(m, delivered) + [CancelCalled, Freed] {
      EndedOrder(m, h, delivered);
    }
  }

  /** Exactly-once notification, for every capture of every run that cancels no dead token: once its request is gone
      the notifier has run exactly once, the frame and the request have each been released
      exactly once, the callback ran at most once and before everything else, hence never
      after a cancel, and for a non-cancellable capture it did run. */
  lemma NotifiedExactlyOnce(events: seq<Event>, id: nat)
    requires Runs(events) && CancelsLive(events) && id in Run(events).made
    ensures id in Run(events).history && CallbackFirst(Run(events).made[id], Run(events).history[id])
    ensures id !in Run(events).requests ==>
              var m, h := Run(events).made[id], Run(events).history[id];
              && CountOf(h, Notified) == Times(m.notify)
              && CountOf(h, FrameDestroyed) == CountOf(h, Freed) == Times(m.started)
              && (!m.external && m.callback ==> h != [] && h[0].CalledBack?)
    ensures id in Run(events).requests ==>
              var r, m, h := Run(events).requests[id], Run(events).made[id], Run(events).history[id];
              if r.done then Ended(m, h) else h == []
  {
    SafeExactly(events);
    var s := Run(events);
    var m, h := s.made[id], s.history[id];
    if id in s.requests {
      assert Lives(s.requests[id], m, h);
    } else {
      assert Over(m, h);
      OverCounts(m, h, Notified);
      OverCounts(m, h, FrameDestroyed);
      OverCounts(m, h, Freed);
    }
    OverOrder(m, h);
  }

  /** Why cancellable captures must not be starved: the token then names a freed request. */
  lemma StarvedTokenDangles(s: State, e: Event)
    requires Sound(s) && Enabled(s, e) && Starved(s, e) && s.requests[e.id].external
    ensures Enabled(Step(s, e), CancelCall(e.id))
    ensures !Step(Step(s, e), CancelCall(e.id)).safe
  {
    StarvedLife(s, e.id, e.g, e.poolOk);
  }

  lemma RunSnoc(events: seq<Event>, e: Event)
    ensures Runs(events + [e]) <==> Runs(events) && Enabled(Run(events), e)
    ensures Run(events + [e]) == Advance(Run(events), e)
  {
    assert (events + [e])[..|events + [e]| - 1] == events;
  }

  const FIRST_CAPTURE: Event := CaptureCall(true, true, true, true)

  lemma FirstCaptureState()
    ensures var s := Step(INIT, FIRST_CAPTURE);
            && Good(s) && s.slots == FreshSlots()
            && 0 in s.requests && s.requests[0] == Request(true, None, None, true, true, true, false)
  {
    InitGood();
    StepKeeps(INIT, FIRST_CAPTURE);
  }

  lemma FreshSlotsNotReusable(g: Geometry, i: nat)
    ensures FindReusable(FreshSlots(), g, i) < 0
  {
  }

  lemma FreshSlotsStarve(s: State, g: Geometry)
    requires s.slots == FreshSlots()
    ensures Acquire(s, g, false).1.None?
  {
    FreshSlotsNotReusable(g, 0);
  }

  /** A run that gets there: a cancellable capture, a buffer event that finds no memory at all,
      and the client cancels. */
  lemma {:induction false} StarvedTokenReached(g: Geometry)
    ensures var events := [] + [FIRST_CAPTURE] + [BufferEvent(0, g, false, false)] + [CancelCall(0)];
            Runs(events) && !Run(events).safe
  {
    var e1 := BufferEvent(0, g, false, false);
    FirstCaptureState();
    var s := Step(INIT, FIRST_CAPTURE);
    FreshSlotsStarve(s, g);
    StarvedTokenDangles(s, e1);
    RunSnoc([], FIRST_CAPTURE);
    RunSnoc([] + [FIRST_CAPTURE], e1);
    RunSnoc([] + [FIRST_CAPTURE] + [e1], CancelCall(0));
  }
}
