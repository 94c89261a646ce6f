/** How often the session is unlocked, event by event. */
module LockUnlock {
  import opened LockSpec
  import opened LockTheorems
  import opened LockPassword

  /** The event sends an unlock request: a leaving frame whose time is over, the removal of the
      last configured output while leaving, or an authentication without a configured output. */
  predicate UnlocksNow(s: State, e: Event) {
    match e
    case FrameEvent(_, elapsed, _) => s.phase == Leave && s.started && elapsed
    case OutputRemoved(name) =>
      s.phase == Leave && Find(s.outputs, name, 0) >= 0 && !AnyConfigured(Without(s, Find(s.outputs, name, 0)))
    case KeyEvent(key, _, _) => Heeded(s, e) && key.EnterKey? && key.granted && s.password != [] && !AnyConfigured(s)
    case FingerprintEvent(_, _) => s.phase != Leave && !AnyConfigured(s)
    case _ => false
  }

  function Without(s: State, at: nat): State
    requires at < |s.outputs|
  {
    s.(outputs := s.outputs[..at] + s.outputs[at + 1..])
  }

  function UnlockCount(facts: seq<Fact>): nat {
    if facts == [] then 0
    else UnlockCount(facts[..|facts| - 1]) + (if facts[|facts| - 1].Unlocked? then 1 else 0)
  }

  /** How many of the events sent an unlock request. */
  function Unlockings(reduced: bool, events: seq<Event>): nat {
    if events == [] then 0
    else
      var before, e := events[..|events| - 1], events[|events| - 1];
      var s := Run(reduced, before);
      Unlockings(reduced, before) + (if Enabled(s, e) && UnlocksNow(s, e) then 1 else 0)
  }

  lemma CountSnoc(facts: seq<Fact>, f: Fact)
    ensures UnlockCount(facts + [f]) == UnlockCount(facts) + (if f.Unlocked? then 1 else 0)
  {
    assert (facts + [f])[..|facts|] == facts;
  }

  // ---------------------------------------------------------------- one event

  /** What painting leaves alone: the facts, whether it runs, and which outputs are configured. */
  ghost predicate SamePicture(s: State, s': State) {
    && SameText(s, s') && s'.running == s.running && |s'.outputs| == |s.outputs|
    && forall i :: 0 <= i < |s.outputs| ==> s'.outputs[i].configured == s.outputs[i].configured
  }

  lemma RenderKeepsPicture(s: State, i: nat, p: Paint)
    requires i < |s.outputs|
    ensures SamePicture(s, Render(s, i, p))
  {
    RenderRepaints(s, i, p);
  }

  lemma SamePictureOn(a: State, b: State, c: State)
    requires SamePicture(a, b) && SamePicture(b, c)
    ensures SamePicture(a, c)
  {
  }

  lemma {:induction false} PaintKeepsPicture(s: State, i: nat, paints: seq<Paint>)
    ensures SamePicture(s, RenderFrom(s, i, paints))
    decreases |s.outputs| - i
  {
    if i < |s.outputs| {
      if s.outputs[i].configured {
        var next := Render(s, i, PaintOf(paints, i));
        RenderKeepsPicture(s, i, PaintOf(paints, i));
        PaintKeepsPicture(next, i + 1, paints);
        SamePictureOn(s, next, RenderFrom(next, i + 1, paints));
      } else {
        PaintKeepsPicture(s, i + 1, paints);
      }
    }
  }

  lemma SameConfigured(s: State, s': State)
    requires SamePicture(s, s')
    ensures AnyConfigured(s') <==> AnyConfigured(s)
  {
  }

  /** `s'` has one unlock request more than `s` if `now`, and exactly then it has stopped. */
  ghost predicate Counts(s: State, s': State, now: bool) {
    && UnlockCount(s'.facts) == UnlockCount(s.facts) + (if now then 1 else 0)
    && (s'.running <==> s.running && !now)
  }

  lemma LeaveCounts(s: State, paints: seq<Paint>)
    ensures Counts(s, BeginLeave(s, paints), s.phase != Leave && !AnyConfigured(s))
  {
    CountSnoc(s.facts, Unlocked);
    if s.phase != Leave && AnyConfigured(s) {
      PaintKeepsPicture(s.(shaking := false, phase := Leave, started := false), 0, paints);
    }
  }

  lemma SubmitCounts(s: State, granted: bool, first: seq<Paint>, second: seq<Paint>)
    requires s.phase != Leave
    ensures Counts(s, Submit(s, granted, first, second), granted && s.password != [] && !AnyConfigured(s))
  {
    if s.password != [] {
      PaintKeepsPicture(s, 0, first);
      var asked := RenderAll(s, first);
      SameConfigured(s, asked);
      CountSnoc(s.facts, Attempted(s.password));
      var wiped := asked.(password := [], facts := asked.facts + [Attempted(s.password)]);
      if granted {
        CountSnoc(wiped.facts, Authenticated);
        LeaveCounts(wiped.(facts := wiped.facts + [Authenticated]), second);
      } else {
        PaintKeepsPicture(wiped.(shaking := wiped.shaking || !wiped.reduced), 0, second);
      }
    }
  }

  lemma KeyCounts(s: State, e: Event)
    requires e.KeyEvent?
    ensures Counts(s, Step(s, e), UnlocksNow(s, e))
  {
    if Heeded(s, e) {
      match e.key
      case EnterKey(granted) => SubmitCounts(s, granted, e.first, e.second);
      case BackSpace => PaintKeepsPicture(if s.password != [] then s.(password := s.password[..|s.password| - 1]) else s, 0, e.first);
      case Escape => PaintKeepsPicture(s.(password := []), 0, e.first);
      case MediaKey =>
      case TypeText(text) => PaintKeepsPicture(s.(password := s.password + text), 0, e.first);
    }
  }

  lemma FingerprintCounts(s: State, first: seq<Paint>, second: seq<Paint>)
    ensures Counts(s, FingerprintMatch(s, first, second), s.phase != Leave && !AnyConfigured(s))
  {
    var matched := s.(facts := s.facts + [Authenticated]);
    CountSnoc(s.facts, Authenticated);
    PaintKeepsPicture(matched, 0, first);
    SameConfigured(matched, RenderAll(matched, first));
    LeaveCounts(RenderAll(matched, first), second);
  }

  lemma FrameCounts(s: State, i: nat, elapsed: bool, p: Paint)
    requires i < |s.outputs|
    ensures Counts(s, FrameDone(s, i, elapsed, p), s.phase == Leave && s.started && elapsed)
  {
    CountSnoc(s.facts, Unlocked);
    RenderKeepsPicture(SetOutput(s, i, s.outputs[i].(frame := false)), i, p);
  }

  lemma RemoveCounts(s: State, name: nat)
    ensures Counts(s, RemoveOutput(s, name), UnlocksNow(s, OutputRemoved(name)))
  {
    CountSnoc(s.facts, Unlocked);
  }

  /** An event adds an unlock request exactly when it unlocks now, and only by that, or when the
      compositor is finished with the lock, does the program stop; it never starts to run again. */
  lemma StepCounts(s: State, e: Event)
    requires Enabled(s, e)
    ensures UnlockCount(Step(s, e).facts) == UnlockCount(s.facts) + (if UnlocksNow(s, e) then 1 else 0)
    ensures Step(s, e).running <==> s.running && !UnlocksNow(s, e) && !e.FinishedEvent?
  {
    match e
    case FrameEvent(i, elapsed, p) => FrameCounts(s, i, elapsed, p);
    case ConfigureEvent(i, p) => RenderKeepsPicture(SetOutput(s, i, s.outputs[i].(configured := true)), i, p);
    case OutputRemoved(name) => RemoveCounts(s, name);
    case KeyEvent(_, _, _) => KeyCounts(s, e);
    case FingerprintEvent(first, second) => FingerprintCounts(s, first, second);
    case RepaintEvent(first) => PaintKeepsPicture(s, 0, first);
    case _ =>
  }

  // ---------------------------------------------------------------- whole runs

  /** Each event finds the program still running, as its loop sees to between dispatches. */
  ghost predicate WhileRunning(reduced: bool, events: seq<Event>) {
    events == [] || (WhileRunning(reduced, events[..|events| - 1]) && Run(reduced, events[..|events| - 1]).running)
  }

  predicate FinishedIn(events: seq<Event>) {
    events != [] && (events[|events| - 1].FinishedEvent? || FinishedIn(events[..|events| - 1]))
  }

  /** A run sends as many unlock requests as it has unlocking events, and goes on until one of them
      or until the compositor is finished with the lock.  One is the most while the
      program runs, so a second can only come from an unlocking event that is dispatched after
      the program has stopped running. */
  lemma {:induction false} UnlocksAreCounted(reduced: bool, events: seq<Event>)
    ensures UnlockCount(Run(reduced, events).facts) == Unlockings(reduced, events)
    ensures Run(reduced, events).running <==> Unlockings(reduced, events) == 0 && !FinishedIn(events)
    ensures WhileRunning(reduced, events) ==> Unlockings(reduced, events) <= 1
    decreases |events|
  {
    if events != [] {
      var before, e := events[..|events| - 1], events[|events| - 1];
      UnlocksAreCounted(reduced, before);
      if Enabled(Run(reduced, before), e) {
        StepCounts(Run(reduced, before), e);
      }
    }
  }

  const TYPE_A: Event := KeyEvent(TypeText([97]), [], [])
  const GRANTED: Event := KeyEvent(EnterKey(true), [], [])

  /** Nothing else prevents it: typing and a granted Enter, twice, without a configured output. */
  lemma TwoUnlocks(reduced: bool)
    ensures Unlockings(reduced, [] + [TYPE_A] + [GRANTED] + [TYPE_A] + [GRANTED]) == 2
  {
    var s0 := LockSpec.Init(reduced);
    UnlockOnce(s0);
    var s1 := Step(Step(s0, TYPE_A), GRANTED);
    UnlockOnce(s1);
    UnlockingsSnoc(reduced, [], TYPE_A);
    UnlockingsSnoc(reduced, [] + [TYPE_A], GRANTED);
    UnlockingsSnoc(reduced, [] + [TYPE_A] + [GRANTED], TYPE_A);
    UnlockingsSnoc(reduced, [] + [TYPE_A] + [GRANTED] + [TYPE_A], GRANTED);
  }

  lemma UnlockOnce(s: State)
    requires s.outputs == [] && s.password == [] && s.phase != Leave
    ensures !UnlocksNow(s, TYPE_A) && UnlocksNow(Step(s, TYPE_A), GRANTED)
    ensures var s' := Step(Step(s, TYPE_A), GRANTED); s'.outputs == [] && s'.password == [] && s'.phase != Leave
  {
  }

  lemma UnlockingsSnoc(reduced: bool, events: seq<Event>, e: Event)
    ensures Run(reduced, events + [e]) == Advance(Run(reduced, events), e)
    ensures Unlockings(reduced, events + [e]) ==
            Unlockings(reduced, events) + (if Enabled(Run(reduced, events), e) && UnlocksNow(Run(reduced, events), e) then 1 else 0)
  {
    assert (events + [e])[..|events + [e]| - 1] == events;
  }
}
