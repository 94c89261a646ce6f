/** Phases keep their callbacks, and outputs their surfaces. */
module LockPhases {
  import opened LockSpec
  import opened LockTheorems

  // ---------------------------------------------------------------- which outputs there are

  /** The names of the outputs plugged in, newest first. */
  function NamesIn(events: seq<Event>): seq<nat> {
    if events == [] then []
    else
      var before := NamesIn(events[..|events| - 1]);
      match events[|events| - 1]
      case OutputAdded(name) => [name] + before
      case OutputRemoved(name) => RemoveFirst(before, name)
      case _ => before
  }

  function RemoveFirst(names: seq<nat>, name: nat): seq<nat> {
    if names == [] then [] else if names[0] == name then names[1..] else [names[0]] + RemoveFirst(names[1..], name)
  }

  function Names(outputs: seq<Output>): (names: seq<nat>)
    ensures |names| == |outputs| && forall i :: 0 <= i < |outputs| ==> names[i] == outputs[i].name
  {
    seq(|outputs|, i requires 0 <= i < |outputs| => outputs[i].name)
  }

  /** The same outputs with the same surfaces. */
  ghost predicate SameScreens(s: State, s': State) {
    && s'.locked == s.locked && |s'.outputs| == |s.outputs|
    && forall i :: 0 <= i < |s.outputs| ==>
         s'.outputs[i].name == s.outputs[i].name && s'.outputs[i].surface == s.outputs[i].surface
  }

  lemma {:induction false} PaintKeepsScreens(s: State, i: nat, paints: seq<Paint>)
    ensures SameScreens(s, RenderFrom(s, i, paints))
    decreases |s.outputs| - i
  {
    if i < |s.outputs| {
      var next := if s.outputs[i].configured then Render(s, i, PaintOf(paints, i)) else s;
      RenderKeepsScreens(s, i, PaintOf(paints, i));
      PaintKeepsScreens(next, i + 1, paints);
      ScreensOn(s, next, RenderFrom(next, i + 1, paints));
    }
  }

  lemma RenderKeepsScreens(s: State, i: nat, p: Paint)
    requires i < |s.outputs|
    ensures SameScreens(s, Render(s, i, p))
  {
    RenderRepaints(s, i, p);
  }

  lemma ScreensOn(a: State, b: State, c: State)
    requires SameScreens(a, b) && SameScreens(b, c)
    ensures SameScreens(a, c)
  {
  }

  lemma LeaveKeepsScreens(s: State, paints: seq<Paint>)
    ensures SameScreens(s, BeginLeave(s, paints))
  {
    if s.phase != Leave && AnyConfigured(s) {
      PaintKeepsScreens(s.(shaking := false, phase := Leave, started := false), 0, paints);
    }
  }

  lemma SubmitKeepsScreens(s: State, granted: bool, first: seq<Paint>, second: seq<Paint>)
    ensures SameScreens(s, Submit(s, granted, first, second))
  {
    if s.password != [] {
      PaintKeepsScreens(s, 0, first);
      var asked := RenderAll(s, first);
      var wiped := asked.(password := [], facts := asked.facts + [Attempted(s.password)]);
      var g := wiped.(facts := wiped.facts + [Authenticated]);
      var shaken := wiped.(shaking := wiped.shaking || !wiped.reduced);
      LeaveKeepsScreens(g, second);
      PaintKeepsScreens(shaken, 0, second);
      ScreensOn(s, asked, if granted then BeginLeave(g, second) else RenderAll(shaken, second));
    }
  }

  lemma KeyKeepsScreens(s: State, k: KeyAction, first: seq<Paint>, second: seq<Paint>)
    ensures SameScreens(s, KeyPress(s, k, first, second))
  {
    match k
    case EnterKey(granted) => SubmitKeepsScreens(s, granted, first, second);
    case BackSpace => PaintKeepsScreens(if s.password != [] then s.(password := s.password[..|s.password| - 1]) else s, 0, first);
    case Escape => PaintKeepsScreens(s.(password := []), 0, first);
    case MediaKey =>
    case TypeText(text) => PaintKeepsScreens(s.(password := s.password + text), 0, first);
  }

  lemma {:induction false} FindIsFirst(outputs: seq<Output>, name: nat, i: nat)
    requires i <= |outputs|
    ensures var at := Find(outputs, name, i);
            forall k :: i <= k < (if at < 0 then |outputs| else at) ==> outputs[k].name != name
    decreases |outputs| - i
  {
    if i < |outputs| && outputs[i].name != name {
      FindIsFirst(outputs, name, i + 1);
    }
  }

  lemma {:induction false} NothingToRemove(names: seq<nat>, name: nat)
    requires forall k :: 0 <= k < |names| ==> names[k] != name
    ensures RemoveFirst(names, name) == names
    decreases |names|
  {
    if names != [] {
      NothingToRemove(names[1..], name);
      assert [names[0]] + names[1..] == names;
    }
  }

  lemma {:induction false} RemovesAt(names: seq<nat>, name: nat, at: nat)
    requires at < |names| && names[at] == name && forall k :: 0 <= k < at ==> names[k] != name
    ensures RemoveFirst(names, name) == names[..at] + names[at + 1..]
    decreases at
  {
    if at > 0 {
      RemovesAt(names[1..], name, at - 1);
      Shifted(names, at);
    }
  }

  lemma Shifted(names: seq<nat>, at: nat)
    requires 0 < at < |names|
    ensures [names[0]] + (names[1..][..at - 1] + names[1..][at..]) == names[..at] + names[at + 1..]
  {
  }

  lemma NamesCut(outputs: seq<Output>, at: nat)
    requires at < |outputs|
    ensures Names(outputs[..at] + outputs[at + 1..]) == Names(outputs)[..at] + Names(outputs)[at + 1..]
  {
  }

  lemma RemovedOutputs(s: State, name: nat)
    ensures var at := Find(s.outputs, name, 0);
            RemoveOutput(s, name).outputs == if at < 0 then s.outputs else s.outputs[..at] + s.outputs[at + 1..]
    ensures RemoveOutput(s, name).locked == s.locked
  {
  }

  lemma RemoveKeepsOthers(s: State, name: nat)
    ensures Names(RemoveOutput(s, name).outputs) == RemoveFirst(Names(s.outputs), name)
    ensures RemoveOutput(s, name).locked == s.locked
    ensures forall o :: o in RemoveOutput(s, name).outputs ==> o in s.outputs
  {
    var at := Find(s.outputs, name, 0);
    RemovedOutputs(s, name);
    FindIsFirst(s.outputs, name, 0);
    if at < 0 {
      NothingToRemove(Names(s.outputs), name);
    } else {
      RemovesAt(Names(s.outputs), name, at);
      NamesCut(s.outputs, at);
    }
  }

  /** Events that neither plug outputs in or out nor confirm the lock. */
  lemma OthersKeepScreens(s: State, e: Event)
    requires Enabled(s, e) && !e.OutputAdded? && !e.OutputRemoved? && !e.LockedEvent?
    ensures SameScreens(s, Step(s, e))
  {
    match e
    case FrameEvent(i, elapsed, p) => RenderKeepsScreens(SetOutput(s, i, s.outputs[i].(frame := false)), i, p);
    case ConfigureEvent(i, p) => RenderKeepsScreens(SetOutput(s, i, s.outputs[i].(configured := true)), i, p);
    case KeyEvent(key, first, second) => KeyKeepsScreens(s, key, first, second);
    case FingerprintEvent(first, second) =>
      var matched := s.(facts := s.facts + [Authenticated]);
      PaintKeepsScreens(matched, 0, first);
      LeaveKeepsScreens(RenderAll(matched, first), second);
      ScreensOn(matched, RenderAll(matched, first), BeginLeave(RenderAll(matched, first), second));
    case RepaintEvent(first) => PaintKeepsScreens(s, 0, first);
    case _ =>
  }

  lemma AddedNames(s: State, name: nat)
    ensures Names(AddOutput(s, name).outputs) == [name] + Names(s.outputs)
  {
  }

  /** Every output has a lock surface exactly when the lock has been confirmed. */
  ghost predicate Surfaced(s: State) { forall o :: o in s.outputs ==> (o.surface <==> s.locked) }

  lemma ScreensKeepSurfaces(s: State, s': State)
    requires SameScreens(s, s') && Surfaced(s)
    ensures Surfaced(s') && Names(s'.outputs) == Names(s.outputs)
  {
    forall o | o in s'.outputs ensures o.surface <==> s'.locked {
      var i :| 0 <= i < |s'.outputs| && s'.outputs[i] == o;
      assert s.outputs[i] in s.outputs;
    }
  }

  lemma StepScreens(s: State, e: Event)
    requires Enabled(s, e) && Surfaced(s)
    ensures Surfaced(Step(s, e)) && (Step(s, e).locked <==> s.locked || e.LockedEvent?)
    ensures Names(Step(s, e).outputs) ==
            match e
            case OutputAdded(name) => [name] + Names(s.outputs)
            case OutputRemoved(name) => RemoveFirst(Names(s.outputs), name)
            case _ => Names(s.outputs)
  {
    match e
    case OutputAdded(name) => AddedNames(s, name);
    case OutputRemoved(name) => RemoveKeepsOthers(s, name);
    case LockedEvent =>
      assert Names(LockConfirmed(s).outputs) == Names(s.outputs);
    case _ =>
      OthersKeepScreens(s, e);
      ScreensKeepSurfaces(s, Step(s, e));
  }

  /** Every output plugged in is there, and it has a lock surface exactly when the lock has been
      confirmed, over every run whose events can happen. */
  lemma {:induction false} EveryOutputIsLocked(reduced: bool, events: seq<Event>)
    ensures var s := Run(reduced, events);
            Surfaced(s) && Names(s.outputs) == NamesIn(events) && (s.locked <==> LockedIn(events))
    decreases |events|
  {
    if events != [] {
      var before, e := events[..|events| - 1], events[|events| - 1];
      EveryOutputIsLocked(reduced, before);
      if Enabled(Run(reduced, before), e) {
        StepScreens(Run(reduced, before), e);
      }
    }
  }

  /** The lock has been confirmed. */
  predicate LockedIn(events: seq<Event>) {
    events != [] && (events[|events| - 1].LockedEvent? || LockedIn(events[..|events| - 1]))
  }

  // ---------------------------------------------------------------- what moves goes on

  /** A phase is under way, or the card shakes. */
  predicate Moving(s: State) { s.phase != Idle || s.shaking }

  ghost predicate Framed(s: State, n: nat) {
    forall i :: 0 <= i < n && i < |s.outputs| && s.outputs[i].configured ==> s.outputs[i].frame
  }

  /** While something moves every configured output hears of the next frame; nothing shakes while
      leaving. */
  ghost predicate Lively(s: State) {
    && (Moving(s) ==> Framed(s, |s.outputs|))
    && (s.phase == Leave ==> !s.shaking)
  }

  /** A paint that finds its buffer asks for the next frame as long as something moves; nothing
      starts to move by being painted. */
  lemma RenderMoves(s: State, i: nat, p: Paint)
    requires i < |s.outputs| && p.buffer
    ensures var s' := Render(s, i, p);
            && |s'.outputs| == |s.outputs|
            && (Moving(s') ==> Moving(s) && s'.outputs[i].frame)
            && (s'.phase == Leave <==> s.phase == Leave) && (s'.shaking ==> s.shaking)
            && forall k :: 0 <= k < |s.outputs| && k != i ==> s'.outputs[k] == s.outputs[k]
  {
    MotionMoves(s, p);
  }

  lemma MotionMoves(s: State, p: Paint)
    ensures var (s', asks) := Motion(s, p);
            && s'.outputs == s.outputs && (Moving(s') ==> Moving(s) && (asks || s'.phase == Leave))
            && (s'.phase == Leave <==> s.phase == Leave) && (s'.shaking ==> s.shaking)
  {
  }

  lemma {:induction false} PaintMoves(s: State, i: nat, paints: seq<Paint>)
    requires Fed(paints) && (Moving(s) ==> Framed(s, i))
    ensures var s' := RenderFrom(s, i, paints);
            && (Moving(s') ==> Framed(s', |s'.outputs|))
            && (s'.phase == Leave <==> s.phase == Leave) && (s'.shaking ==> s.shaking)
    decreases |s.outputs| - i
  {
    if i < |s.outputs| {
      if s.outputs[i].configured {
        RenderMoves(s, i, PaintOf(paints, i));
        PaintMoves(Render(s, i, PaintOf(paints, i)), i + 1, paints);
      } else {
        PaintMoves(s, i + 1, paints);
      }
    }
  }

  lemma LeaveMoves(s: State, paints: seq<Paint>)
    requires Fed(paints) && Lively(s)
    ensures Lively(BeginLeave(s, paints))
  {
    if s.phase != Leave && AnyConfigured(s) {
      PaintMoves(s.(shaking := false, phase := Leave, started := false), 0, paints);
    }
  }

  lemma SubmitMoves(s: State, granted: bool, first: seq<Paint>, second: seq<Paint>)
    requires Fed(first) && Fed(second) && Lively(s) && s.phase != Leave
    ensures Lively(Submit(s, granted, first, second))
  {
    if s.password != [] {
      PaintMoves(s, 0, first);
      var asked := RenderAll(s, first);
      var wiped := asked.(password := [], facts := asked.facts + [Attempted(s.password)]);
      LeaveMoves(wiped.(facts := wiped.facts + [Authenticated]), second);
      PaintMoves(wiped.(shaking := wiped.shaking || !wiped.reduced), 0, second);
    }
  }

  lemma KeyMoves(s: State, k: KeyAction, first: seq<Paint>, second: seq<Paint>)
    requires Fed(first) && Fed(second) && Lively(s)
    ensures Lively(KeyPress(s, k, first, second))
  {
    if s.phase != Leave {
      match k
      case EnterKey(granted) => SubmitMoves(s, granted, first, second);
      case BackSpace => PaintMoves(if s.password != [] then s.(password := s.password[..|s.password| - 1]) else s, 0, first);
      case Escape => PaintMoves(s.(password := []), 0, first);
      case MediaKey =>
      case TypeText(text) => PaintMoves(s.(password := s.password + text), 0, first);
    }
  }

  lemma StepMoves(s: State, e: Event)
    requires Lively(s) && Enabled(s, e) && EventFed(e)
    ensures Lively(Step(s, e))
  {
    match e
    case FrameEvent(i, elapsed, p) => RenderMoves(SetOutput(s, i, s.outputs[i].(frame := false)), i, p);
    case ConfigureEvent(i, p) => RenderMoves(SetOutput(s, i, s.outputs[i].(configured := true)), i, p);
    case OutputRemoved(name) => RemoveMoves(s, name);
    case KeyEvent(key, first, second) => KeyMoves(s, key, first, second);
    case FingerprintEvent(first, second) =>
      var matched := s.(facts := s.facts + [Authenticated]);
      PaintMoves(matched, 0, first);
      LeaveMoves(RenderAll(matched, first), second);
    case RepaintEvent(first) => PaintMoves(s, 0, first);
    case _ =>
  }

  lemma RemoveMoves(s: State, name: nat)
    requires Lively(s)
    ensures Lively(RemoveOutput(s, name))
  {
    RemoveKeepsOthers(s, name);
    var s' := RemoveOutput(s, name);
    forall i | 0 <= i < |s'.outputs| && s'.outputs[i].configured && Moving(s') ensures s'.outputs[i].frame {
      assert s'.outputs[i] in s.outputs;
    }
  }

  /** What moves goes on: in every run whose paints all find buffers, while the lock screen enters,
      leaves or shakes, every configured output has a frame callback pending. */
  lemma {:induction false} MovingKeepsCallbacks(reduced: bool, events: seq<Event>)
    requires forall k :: 0 <= k < |events| ==> EventFed(events[k])
    ensures var s := Run(reduced, events);
            Moving(s) ==> forall i :: 0 <= i < |s.outputs| && s.outputs[i].configured ==> s.outputs[i].frame
    ensures Lively(Run(reduced, events))
    decreases |events|
  {
    if events != [] {
      var before, e := events[..|events| - 1], events[|events| - 1];
      MovingKeepsCallbacks(reduced, before);
      if Enabled(Run(reduced, before), e) {
        StepMoves(Run(reduced, before), e);
      }
    }
  }

  /** The enter phase ends idle with the first frame painted after its time, and what does not move
      asks for no more frames. */
  lemma EnterEndsIdle(s: State, i: nat, elapsed: bool, p: Paint)
    requires i < |s.outputs| && s.outputs[i].frame && p.buffer
    ensures s.phase == Enter && p.atEnd ==> FrameDone(s, i, elapsed, p).phase == Idle
    ensures s.phase == Enter && !p.atEnd ==> FrameDone(s, i, elapsed, p).phase == Enter && FrameDone(s, i, elapsed, p).outputs[i].frame
    ensures !Moving(s) ==> !FrameDone(s, i, elapsed, p).outputs[i].frame
  {
  }

  // ---------------------------------------------------------------- what is painted

  /** Painting from output `i` on reaches output `k` and finds a buffer for it. */
  predicate Reaches(s: State, i: nat, paints: seq<Paint>, k: nat) {
    i <= k < |s.outputs| && s.outputs[k].configured && !s.outputs[k].frame && PaintOf(paints, k).buffer
  }

  /** One of the outputs reached is painted after the shake has died down. */
  ghost predicate Calms(s: State, i: nat, paints: seq<Paint>) {
    exists k :: Reaches(s, i, paints, k) && PaintOf(paints, k).calm
  }

  ghost predicate ReachesAny(s: State, i: nat, paints: seq<Paint>) { exists k :: Reaches(s, i, paints, k) }

  lemma RenderOne(s: State, i: nat, p: Paint)
    requires i < |s.outputs|
    ensures var s' := Render(s, i, p);
            && |s'.outputs| == |s.outputs| && (s'.phase == Leave <==> s.phase == Leave)
            && (forall k :: 0 <= k < |s.outputs| && k != i ==> s'.outputs[k] == s.outputs[k])
            && (s.outputs[i].frame || !p.buffer ==> s'.shaking == s.shaking && s'.started == s.started)
            && (!s.outputs[i].frame && p.buffer ==> s'.shaking == (s.shaking && !p.calm) && (s.phase == Leave ==> s'.started))
            && (!s.outputs[i].frame ==> s'.outputs[i].starved == !p.buffer)
  {
    var (s1, moving) := Motion(s, p);
    assert s1.outputs == s.outputs;
  }

  lemma ReachesOn(s: State, s': State, i: nat, paints: seq<Paint>)
    requires i < |s.outputs| && |s'.outputs| == |s.outputs|
    requires forall k :: i < k < |s.outputs| ==> s'.outputs[k] == s.outputs[k]
    ensures forall k :: Reaches(s, i, paints, k) <==> Reaches(s', i + 1, paints, k) || (k == i && Reaches(s, i, paints, i))
  {
  }

  /** The shake ends with the first paint that finds it died down; the clock of the leave phase
      starts with the first paint; and every configured output without a pending frame is painted. */
  lemma {:induction false} PaintOutcome(s: State, i: nat, paints: seq<Paint>)
    ensures var s' := RenderFrom(s, i, paints);
            && (s'.shaking <==> s.shaking && !Calms(s, i, paints))
            && (s.phase == Leave ==> (s'.started <==> s.started || ReachesAny(s, i, paints)))
    decreases |s.outputs| - i
  {
    if i < |s.outputs| {
      var p := PaintOf(paints, i);
      var next := if s.outputs[i].configured then Render(s, i, p) else s;
      RenderOne(s, i, p);
      ReachesOn(s, next, i, paints);
      PaintOutcome(next, i + 1, paints);
      assert Reaches(s, i, paints, i) <==> s.outputs[i].configured && !s.outputs[i].frame && p.buffer;
      CalmsOn(s, next, i, i + 1, paints);
    }
  }

  lemma CalmsOn(s: State, s': State, i: nat, j: nat, paints: seq<Paint>)
    requires forall k :: Reaches(s, i, paints, k) <==> Reaches(s', j, paints, k) || (k == i && Reaches(s, i, paints, i))
    ensures Calms(s, i, paints) <==> Calms(s', j, paints) || (Reaches(s, i, paints, i) && PaintOf(paints, i).calm)
    ensures ReachesAny(s, i, paints) <==> ReachesAny(s', j, paints) || Reaches(s, i, paints, i)
  {
    if k :| Reaches(s', j, paints, k) && PaintOf(paints, k).calm {
      assert Reaches(s, i, paints, k);
    }
    if k :| Reaches(s, i, paints, k) && PaintOf(paints, k).calm {
      assert Reaches(s', j, paints, k) || k == i;
    }
  }

  lemma {:induction false} PaintReachesEvery(s: State, i: nat, paints: seq<Paint>, k: nat)
    requires k < |s.outputs|
    ensures k < i ==> RenderFrom(s, i, paints).outputs[k] == s.outputs[k]
    ensures i <= k && s.outputs[k].configured && !s.outputs[k].frame ==>
              RenderFrom(s, i, paints).outputs[k].starved == !PaintOf(paints, k).buffer
    decreases |s.outputs| - i
  {
    if i < |s.outputs| {
      var next := if s.outputs[i].configured then Render(s, i, PaintOf(paints, i)) else s;
      RenderOne(s, i, PaintOf(paints, i));
      PaintReachesEvery(next, i + 1, paints, k);
    }
  }

  /** A repaint tries every configured output that waits for no frame. */
  lemma RepaintReachesAll(s: State, paints: seq<Paint>, k: nat)
    requires k < |s.outputs| && s.outputs[k].configured && !s.outputs[k].frame
    ensures Step(s, RepaintEvent(paints)).outputs[k].starved == !PaintOf(paints, k).buffer
  {
    PaintReachesEvery(s, 0, paints, k);
  }

  /** Leaving begins with a new clock, which runs from the first paint on. */
  lemma LeavingRestartsClock(s: State, paints: seq<Paint>)
    requires s.phase != Leave && AnyConfigured(s)
    ensures BeginLeave(s, paints).started <==> ReachesAny(s, 0, paints)
  {
    var leaving := s.(shaking := false, phase := Leave, started := false);
    PaintOutcome(leaving, 0, paints);
    assert forall k :: Reaches(leaving, 0, paints, k) <==> Reaches(s, 0, paints, k);
  }

  // ---------------------------------------------------------------- the shake

  /** The card shakes after a refusal unless motion is reduced, or goes on shaking; until the first
      paint that finds the shake died down. */
  lemma RefusalShakes(s: State, first: seq<Paint>, second: seq<Paint>)
    requires s.password != []
    ensures Submit(s, false, first, second).shaking <==>
            (!s.reduced || (s.shaking && !Calms(s, 0, first))) && !Calms(RenderAll(s, first), 0, second)
  {
    var asked := RenderAll(s, first);
    var wiped := asked.(password := [], facts := asked.facts + [Attempted(s.password)]);
    var shaken := wiped.(shaking := wiped.shaking || !wiped.reduced);
    PaintOutcome(s, 0, first);
    PaintOutcome(shaken, 0, second);
    PaintKeepsMotion(s, 0, first);
    assert forall k :: Reaches(shaken, 0, second, k) <==> Reaches(asked, 0, second, k);
  }

  lemma {:induction false} PaintKeepsMotion(s: State, i: nat, paints: seq<Paint>)
    ensures RenderFrom(s, i, paints).reduced == s.reduced
    decreases |s.outputs| - i
  {
    if i < |s.outputs| {
      PaintKeepsMotion(if s.outputs[i].configured then Render(s, i, PaintOf(paints, i)) else s, i + 1, paints);
    }
  }

  lemma LeaveShakes(s: State, paints: seq<Paint>)
    ensures BeginLeave(s, paints).shaking ==> s.shaking
    ensures BeginLeave(s, paints).reduced == s.reduced
  {
    if s.phase != Leave && AnyConfigured(s) {
      PaintOutcome(s.(shaking := false, phase := Leave, started := false), 0, paints);
      PaintKeepsMotion(s.(shaking := false, phase := Leave, started := false), 0, paints);
    }
  }

  /** The shake does not begin. */
  ghost predicate NoNewShake(s: State, s': State) { (s'.shaking ==> s.shaking) && s'.reduced == s.reduced }

  lemma PaintShakes(s: State, paints: seq<Paint>)
    ensures NoNewShake(s, RenderAll(s, paints))
  {
    PaintOutcome(s, 0, paints);
    PaintKeepsMotion(s, 0, paints);
  }

  lemma SubmitShakes(s: State, granted: bool, first: seq<Paint>, second: seq<Paint>)
    requires granted || s.reduced
    ensures NoNewShake(s, Submit(s, granted, first, second))
  {
    if s.password != [] {
      var asked := RenderAll(s, first);
      var wiped := asked.(password := [], facts := asked.facts + [Attempted(s.password)]);
      PaintShakes(s, first);
      LeaveShakes(wiped.(facts := wiped.facts + [Authenticated]), second);
      PaintShakes(wiped.(shaking := wiped.shaking || !wiped.reduced), second);
    }
  }

  lemma KeyShakes(s: State, k: KeyAction, first: seq<Paint>, second: seq<Paint>)
    requires s.reduced || k != EnterKey(false)
    ensures NoNewShake(s, KeyPress(s, k, first, second))
  {
    match k
    case EnterKey(granted) => SubmitShakes(s, granted, first, second);
    case BackSpace => PaintShakes(if s.password != [] then s.(password := s.password[..|s.password| - 1]) else s, first);
    case Escape => PaintShakes(s.(password := []), first);
    case MediaKey =>
    case TypeText(text) => PaintShakes(s.(password := s.password + text), first);
  }

  lemma RenderShakes(s: State, i: nat, p: Paint)
    requires i < |s.outputs|
    ensures NoNewShake(s, Render(s, i, p))
  {
    RenderOne(s, i, p);
  }

  lemma RemoveShakes(s: State, name: nat)
    ensures NoNewShake(s, RemoveOutput(s, name))
  {
  }

  /** Nothing but a refused password sets the card shaking, and nothing does with reduced motion. */
  lemma OnlyRefusalsShake(s: State, e: Event)
    requires Enabled(s, e) && (s.reduced || !(e.KeyEvent? && e.key == EnterKey(false)))
    ensures NoNewShake(s, Step(s, e))
  {
    match e
    case FrameEvent(i, elapsed, p) => RenderShakes(SetOutput(s, i, s.outputs[i].(frame := false)), i, p);
    case ConfigureEvent(i, p) => RenderShakes(SetOutput(s, i, s.outputs[i].(configured := true)), i, p);
    case OutputRemoved(name) => RemoveShakes(s, name);
    case KeyEvent(key, first, second) => KeyShakes(s, key, first, second);
    case FingerprintEvent(first, second) =>
      var matched := s.(facts := s.facts + [Authenticated]);
      PaintShakes(matched, first);
      LeaveShakes(RenderAll(matched, first), second);
    case RepaintEvent(first) => PaintShakes(s, first);
    case _ =>
  }

  /** Over every run: a card that shakes was refused a password, and motion is not reduced. */
  lemma {:induction false} ShakesAfterRefusal(reduced: bool, events: seq<Event>)
    ensures var s := Run(reduced, events); s.reduced == reduced && (s.shaking ==> !reduced && RefusedIn(events))
    decreases |events|
  {
    if events != [] {
      var before, e := events[..|events| - 1], events[|events| - 1];
      ShakesAfterRefusal(reduced, before);
      StepReduced(Run(reduced, before), e);
      if Enabled(Run(reduced, before), e) && (reduced || !(e.KeyEvent? && e.key == EnterKey(false))) {
        OnlyRefusalsShake(Run(reduced, before), e);
      }
    }
  }

  predicate RefusedIn(events: seq<Event>) {
    events != [] && (RefusedIn(events[..|events| - 1]) || (events[|events| - 1].KeyEvent? && events[|events| - 1].key == EnterKey(false)))
  }

  lemma StepReduced(s: State, e: Event)
    ensures Advance(s, e).reduced == s.reduced
  {
    if Enabled(s, e) {
      if e.KeyEvent? && e.key == EnterKey(false) {
        var asked := RenderAll(s, e.first);
        var wiped := asked.(password := [], facts := asked.facts + [Attempted(s.password)]);
        PaintKeepsMotion(s, 0, e.first);
        PaintKeepsMotion(wiped.(shaking := wiped.shaking || !wiped.reduced), 0, e.second);
      } else {
        OnlyRefusalsShake(s, e);
      }
    }
  }
}
