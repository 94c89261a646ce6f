/** What callers are told, from the events. */
module PreviewOutcome {
  import opened Basics
  import opened PreviewSpec
  import opened PreviewTheorems

  // ---------------------------------------------------------------- from the events

  /** The captures made, in order, as they were asked for. */
  function CapturesIn(events: seq<Event>): seq<Made> {
    if events == [] then []
    else
      CapturesIn(events[..|events| - 1]) +
      (match events[|events| - 1]
       case CaptureCall(external, callback, notify, available) => [Made(external, callback, notify, available)]
       case _ => [])
  }

  /** This event makes the callback of capture `id` hear of it, with a picture or without. */
  ghost predicate Answers(before: seq<Event>, e: Event, id: nat, delivered: bool) {
    match e
    case CaptureCall(_, _, _, available) => !delivered && !available && id == |CapturesIn(before)|
    case BufferEvent(i, _, _, _) => !delivered && i == id && Starved(Run(before), e)
    case EndEvent(i, d) => i == id && d == delivered
    case _ => false
  }

  ghost predicate Answered(events: seq<Event>, id: nat, delivered: bool) {
    events != [] &&
    (Answered(events[..|events| - 1], id, delivered) ||
     Answers(events[..|events| - 1], events[|events| - 1], id, delivered))
  }

  // ---------------------------------------------------------------- what one event tells

  predicate Told(s: State, id: nat, delivered: bool) { id in s.history && CalledBack(delivered) in s.history[id] }

  lemma LogTells(s: State, at: nat, notes: seq<Note>, id: nat, delivered: bool)
    ensures Told(Log(s, at, notes), id, delivered) <==> Told(s, id, delivered) || (id == at && CalledBack(delivered) in notes)
  {
  }

  lemma FreeTellsNothing(s: State, at: nat)
    requires at in s.requests
    ensures FreeBuffer(s, at).history == s.history
  {
  }

  lemma {:induction false} TrimTellsNothing(s: State, i: nat)
    ensures TrimFrom(s, i).history == s.history
    decreases |s.slots| - i
  {
    if i < |s.slots| {
      if s.slots[i].inUse || s.slots[i].buffer.None? {
        TrimTellsNothing(s, i + 1);
      } else {
        var s' := DestroyBuffer(s, s.slots[i].buffer.value);
        TrimTellsNothing(s'.(slots := s'.slots[i := EMPTY_SLOT]), i + 1);
      }
    }
  }

  lemma BufferTells(s: State, at: nat, g: Geometry, poolOk: bool, transientOk: bool, id: nat, delivered: bool)
    requires at in s.requests && |s.slots| == POOL_MAX
    ensures Told(OnBuffer(s, at, g, poolOk, transientOk), id, delivered) <==>
            || Told(s, id, delivered)
            || (id == at && !delivered && s.requests[at].callback && Acquire(s, g, poolOk).1.None? && !transientOk)
  {
    var r, s1 := s.requests[at], Acquire(s, g, poolOk).0;
    AcquireFrame(s, g, poolOk);
    LogTells(s1, at, IfSet(r.callback, CalledBack(false)) + IfSet(r.notify, Notified) + [FrameDestroyed, Freed], id, delivered);
  }

  lemma EndTells(s: State, at: nat, d: bool, id: nat, delivered: bool)
    requires at in s.requests
    ensures Told(OnEnd(s, at, d), id, delivered) <==>
            Told(s, id, delivered) || (id == at && delivered == d && s.requests[at].callback)
  {
    var r, s1 := s.requests[at], FreeBuffer(s, at);
    var notes := IfSet(r.callback, CalledBack(d)) + [FrameDestroyed] + IfSet(r.notify, Notified);
    FreeTellsNothing(s, at);
    LogTells(s1, at, notes, id, delivered);
    LogTells(s1, at, notes + [Freed], id, delivered);
  }

  lemma CancelTells(s: State, at: nat, id: nat, delivered: bool)
    ensures Told(Cancel(s, at), id, delivered) <==> Told(s, id, delivered)
  {
    var s0 := s.(tokens := s.tokens - {at});
    if at in s0.requests {
      var r := s0.requests[at];
      FreeTellsNothing(s0, at);
      LogTells(s0, at, [CancelCalled, Freed], id, delivered);
      LogTells(FreeBuffer(s0, at), at,
               [CancelCalled] + IfSet(r.frame, FrameDestroyed) + IfSet(r.notify, Notified) + [Freed], id, delivered);
    }
  }

  lemma CaptureTells(s: State, external: bool, callback: bool, notify: bool, available: bool, id: nat, delivered: bool)
    requires s.nextRequest !in s.history
    ensures Told(Capture(s, external, callback, notify, available), id, delivered) <==>
            Told(s, id, delivered) || (id == s.nextRequest && !delivered && !available && callback)
  {
    var at := s.nextRequest;
    var s1 := s.(nextRequest := at + 1, made := s.made[at := Made(external, callback, notify, available)]);
    if available {
      var s2 := s1.(requests := s1.requests[at := Request(true, None, None, callback, notify, external, false)],
                    tokens := if external then s1.tokens + {at} else s1.tokens);
      LogTells(s2, at, [], id, delivered);
    } else {
      LogTells(s1, at, IfSet(callback, CalledBack(false)) + IfSet(notify, Notified), id, delivered);
    }
  }

  /** The event calls the callback of this capture back. */
  ghost predicate Tells(s: State, e: Event, id: nat, delivered: bool) {
    match e
    case CaptureCall(_, callback, _, available) => id == s.nextRequest && !delivered && !available && callback
    case BufferEvent(i, _, _, _) => i == id && !delivered && id in s.requests && s.requests[id].callback && Starved(s, e)
    case EndEvent(i, d) => i == id && d == delivered && id in s.requests && s.requests[id].callback
    case _ => false
  }

  lemma StepTells(s: State, e: Event, id: nat, delivered: bool)
    requires Sound(s) && Enabled(s, e)
    ensures Told(Step(s, e), id, delivered) <==> Told(s, id, delivered) || Tells(s, e, id, delivered)
  {
    match e
    case CaptureCall(external, callback, notify, available) =>
      CaptureTells(s, external, callback, notify, available, id, delivered);
    case BufferEvent(at, g, poolOk, transientOk) => BufferTells(s, at, g, poolOk, transientOk, id, delivered);
    case EndEvent(at, d) => EndTells(s, at, d, id, delivered);
    case CancelCall(at) => CancelTells(s, at, id, delivered);
    case TrimCall => TrimTellsNothing(s, 0);
  }

  // ---------------------------------------------------------------- whole runs

  lemma StepMade(s: State, e: Event)
    requires Enabled(s, e)
    ensures e.CaptureCall? ==>
              && Step(s, e).nextRequest == s.nextRequest + 1
              && Step(s, e).made == s.made[s.nextRequest := Made(e.external, e.callback, e.notify, e.available)]
    ensures !e.CaptureCall? ==> Step(s, e).nextRequest == s.nextRequest && Step(s, e).made == s.made
  {
    match e
    case CaptureCall(_, _, _, _) =>
    case BufferEvent(id, g, poolOk, transientOk) => BufferMakesNothing(s, id, g, poolOk, transientOk);
    case EndEvent(id, delivered) => FreeBufferFrame(s, id);
    case CancelCall(id) => CancelMakesNothing(s, id);
    case TrimCall => TrimMakesNothing(s, 0);
  }

  lemma BufferMakesNothing(s: State, id: nat, g: Geometry, poolOk: bool, transientOk: bool)
    requires id in s.requests
    ensures var s' := OnBuffer(s, id, g, poolOk, transientOk); s'.nextRequest == s.nextRequest && s'.made == s.made
  {
    AcquireFrame(s, g, poolOk);
  }

  lemma CancelMakesNothing(s: State, id: nat)
    ensures Cancel(s, id).nextRequest == s.nextRequest && Cancel(s, id).made == s.made
  {
    if id in s.requests {
      FreeBufferFrame(s.(tokens := s.tokens - {id}), id);
    }
  }

  lemma {:induction false} TrimMakesNothing(s: State, i: nat)
    ensures TrimFrom(s, i).nextRequest == s.nextRequest && TrimFrom(s, i).made == s.made
    decreases |s.slots| - i
  {
    if i < |s.slots| {
      if s.slots[i].inUse || s.slots[i].buffer.None? {
        TrimMakesNothing(s, i + 1);
      } else {
        var s' := DestroyBuffer(s, s.slots[i].buffer.value);
        TrimMakesNothing(s'.(slots := s'.slots[i := EMPTY_SLOT]), i + 1);
      }
    }
  }

  /** Captures are numbered in order and are what was asked for. */
  lemma {:induction false} MadeAsAsked(events: seq<Event>)
    requires Runs(events)
    ensures Run(events).nextRequest == |CapturesIn(events)|
    ensures forall id :: 0 <= id < |CapturesIn(events)| ==> id in Run(events).made && Run(events).made[id] == CapturesIn(events)[id]
    decreases |events|
  {
    if events != [] {
      MadeAsAsked(events[..|events| - 1]);
      StepMade(Run(events[..|events| - 1]), events[|events| - 1]);
    }
  }

  lemma TellsAnswers(before: seq<Event>, e: Event, id: nat, delivered: bool)
    requires Runs(before + [e]) && CancelsLive(before)
    ensures var captures := CapturesIn(before + [e]);
            Tells(Run(before), e, id, delivered) <==>
            id < |captures| && captures[id].callback && Answers(before, e, id, delivered)
  {
    assert (before + [e])[..|before|] == before;
    var s := Run(before);
    SafeExactly(before);
    MadeAsAsked(before);
    MadeAsAsked(before + [e]);
    if id in s.requests {
      assert Lives(s.requests[id], s.made[id], s.history[id]);
      assert s.requests[id].callback == CapturesIn(before)[id].callback;
    }
  }

  /** What the callback is told, over every run that cancels no dead token: it hears of a picture
      exactly when a ready event comes, and of none exactly when the capture is refused, is
      starved of memory or fails; and it hears nothing when there is no callback. */
  lemma {:induction false} CalledBackExactly(events: seq<Event>, id: nat, delivered: bool)
    requires Runs(events) && CancelsLive(events)
    ensures Told(Run(events), id, delivered) <==>
            id < |CapturesIn(events)| && CapturesIn(events)[id].callback && Answered(events, id, delivered)
    decreases |events|
  {
    if events != [] {
      var before, e := events[..|events| - 1], events[|events| - 1];
      assert before + [e] == events;
      CalledBackExactly(before, id, delivered);
      SafeExactly(before);
      MadeAsAsked(before);
      StepTells(Run(before), e, id, delivered);
      TellsAnswers(before, e, id, delivered);
      AnsweredIsCaptured(before, id, delivered);
      if id < |CapturesIn(before)| {
        assert CapturesIn(events)[id] == CapturesIn(before)[id];
      }
    }
  }

  /** Only captures that were made are answered. */
  lemma {:induction false} AnsweredIsCaptured(events: seq<Event>, id: nat, delivered: bool)
    requires Runs(events) && CancelsLive(events)
    ensures Answered(events, id, delivered) ==> id < |CapturesIn(events)|
    decreases |events|
  {
    if events != [] {
      var before, e := events[..|events| - 1], events[|events| - 1];
      AnsweredIsCaptured(before, id, delivered);
      SafeExactly(before);
      MadeAsAsked(before);
    }
  }

  /** A picture is announced exactly when a ready event came. */
  lemma {:induction false} PictureMeansReady(events: seq<Event>, id: nat)
    ensures Answered(events, id, true) <==> EndEvent(id, true) in events
    decreases |events|
  {
    if events != [] {
      var before, e := events[..|events| - 1], events[|events| - 1];
      PictureMeansReady(before, id);
      assert events == before + [e];
    }
  }

  // ---------------------------------------------------------------- which buffer is used

  /** A matching idle buffer is used again as it is; failing that, an idle slot gets a new one, if
      there is memory, in place of the one it had; and when every slot is busy nothing happens. */
  lemma AcquireChooses(s: State, g: Geometry, ok: bool)
    requires |s.slots| == POOL_MAX
    ensures var (s', slot) := Acquire(s, g, ok);
            var reusable := exists i :: 0 <= i < POOL_MAX && Reusable(s.slots[i], g);
            var idle := exists i :: 0 <= i < POOL_MAX && !s.slots[i].inUse;
            && (reusable ==>
                  && slot.Some? && slot.value < POOL_MAX && Reusable(s.slots[slot.value], g)
                  && s' == s.(slots := s.slots[slot.value := s.slots[slot.value].(inUse := true)]))
            && (!reusable && idle && ok ==>
                  && slot.Some? && slot.value < POOL_MAX && !s.slots[slot.value].inUse
                  && s'.slots == s.slots[slot.value := Slot(Some(s.nextBuffer), g, true)]
                  && s'.live == s.live - Had(s.slots[slot.value]) + {s.nextBuffer})
            && (!reusable && !(idle && ok) ==> slot.None? && s'.live <= s.live)
            && (!reusable && !idle ==> s' == s)
  {
  }

  function Had(slot: Slot): set<nat> { match slot.buffer case Some(b) => {b} case None => {} }
}
