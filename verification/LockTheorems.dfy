/** Unlocking needs authentication, and leaving cannot be stranded, over every run. */
module LockTheorems {
  import opened LockSpec

  // ---------------------------------------------------------------- the invariants

  /** Every unlock comes after an authentication. */
  ghost predicate UnlocksEarned(facts: seq<Fact>) {
    forall j :: 0 <= j < |facts| && facts[j].Unlocked? ==> exists i :: 0 <= i < j && facts[i].Authenticated?
  }

  ghost predicate HasAuthenticated(facts: seq<Fact>) {
    exists i :: 0 <= i < |facts| && facts[i].Authenticated?
  }

  ghost predicate Earned(s: State) {
    && UnlocksEarned(s.facts)
    && (s.phase == Leave ==> HasAuthenticated(s.facts))
  }

  /** A pending callback and a failed paint exclude each other. */
  ghost predicate FrameSane(o: Output) { o.frame ==> !o.starved && o.configured }

  ghost predicate FramesSane(s: State) {
    forall i :: 0 <= i < |s.outputs| ==> FrameSane(s.outputs[i])
  }

  /** This output will hear of the next frame, unless its last paint found no buffer. */
  ghost predicate Ticking(o: Output) { o.configured ==> (o.frame <==> !o.starved) }

  ghost predicate AllTicking(s: State, n: nat) { forall i :: 0 <= i < n && i < |s.outputs| ==> Ticking(s.outputs[i]) }

  ghost predicate NotStranded(s: State) {
    s.phase == Leave && s.running ==> AnyConfigured(s) && AllTicking(s, |s.outputs|)
  }

  ghost predicate PasswordFits(s: State) { |s.password| < PASSWORD_SIZE - 1 }

  ghost predicate Inv(s: State) {
    && Earned(s)
    && FramesSane(s)
    && NotStranded(s)
    && PasswordFits(s)
  }

  // ---------------------------------------------------------------- painting

  /** What painting never touches. */
  ghost predicate SameBut(s: State, s': State) {
    && s'.facts == s.facts && s'.running == s.running && s'.password == s.password && s'.locked == s.locked
    && s'.reduced == s.reduced && |s'.outputs| == |s.outputs|
    && (s'.phase == Leave <==> s.phase == Leave)
    && (forall i :: 0 <= i < |s.outputs| ==>
          s'.outputs[i].configured == s.outputs[i].configured && s'.outputs[i].name == s.outputs[i].name &&
          s'.outputs[i].surface == s.outputs[i].surface)
  }

  lemma MotionKeeps(s: State, p: Paint)
    ensures var s' := Motion(s, p).0;
            && s' == s.(phase := s'.phase, started := s'.started, shaking := s'.shaking)
            && (s'.phase == Leave <==> s.phase == Leave)
  {
  }

  /** `s'` is `s` with one output repainted. */
  ghost predicate Repainted(s: State, s': State, i: nat, frame: bool, starved: bool) {
    && i < |s.outputs|
    && s' == s.(phase := s'.phase, started := s'.started, shaking := s'.shaking,
                outputs := s.outputs[i := s.outputs[i].(frame := frame, starved := starved)])
    && (s'.phase == Leave <==> s.phase == Leave)
  }

  lemma RenderRepaints(s: State, i: nat, p: Paint)
    requires i < |s.outputs|
    ensures var s' := Render(s, i, p);
            && (s.outputs[i].frame ==> Repainted(s, s', i, true, s.outputs[i].starved))
            && (!s.outputs[i].frame && !p.buffer ==> Repainted(s, s', i, false, true))
            && (!s.outputs[i].frame && p.buffer ==>
                  exists frame :: Repainted(s, s', i, frame, false) && (s.phase == Leave ==> frame))
  {
    MotionKeeps(s, p);
    var s' := Render(s, i, p);
    if s.outputs[i].frame {
      assert s.outputs[i := s.outputs[i]] == s.outputs;
    } else if p.buffer {
      assert Repainted(s, s', i, s'.outputs[i].frame, false);
    }
  }

  lemma RepaintedKeeps(s: State, s': State, i: nat, frame: bool, starved: bool)
    requires FramesSane(s) && Repainted(s, s', i, frame, starved) && s.outputs[i].configured && !(frame && starved)
    ensures SameBut(s, s') && FramesSane(s')
    ensures forall k :: 0 <= k < |s.outputs| && k != i ==> s'.outputs[k] == s.outputs[k]
    ensures s'.outputs[i] == s.outputs[i].(frame := frame, starved := starved)
  {
  }

  lemma RenderKeeps(s: State, i: nat, p: Paint)
    requires FramesSane(s) && i < |s.outputs| && s.outputs[i].configured
    ensures SameBut(s, Render(s, i, p)) && FramesSane(Render(s, i, p))
    ensures forall k :: 0 <= k < |s.outputs| && k != i ==> Render(s, i, p).outputs[k] == s.outputs[k]
    ensures s.phase == Leave ==> Ticking(Render(s, i, p).outputs[i])
    ensures s.phase == Leave && p.buffer ==> Render(s, i, p).outputs[i].frame
  {
    RenderRepaints(s, i, p);
    var s' := Render(s, i, p);
    var o := s.outputs[i];
    assert FrameSane(o);
    if o.frame {
      RepaintedKeeps(s, s', i, true, false);
    } else if !p.buffer {
      RepaintedKeeps(s, s', i, false, true);
    } else {
      var frame :| Repainted(s, s', i, frame, false) && (s.phase == Leave ==> frame);
      RepaintedKeeps(s, s', i, frame, false);
    }
  }

  lemma {:induction false} RenderFromKeeps(s: State, i: nat, paints: seq<Paint>)
    requires FramesSane(s) && i <= |s.outputs| && (s.phase == Leave ==> AllTicking(s, i))
    ensures var s' := RenderFrom(s, i, paints);
            SameBut(s, s') && FramesSane(s') && (s.phase == Leave ==> AllTicking(s', |s'.outputs|))
    decreases |s.outputs| - i
  {
    if i < |s.outputs| {
      if s.outputs[i].configured {
        RenderKeeps(s, i, PaintOf(paints, i));
        RenderFromKeeps(Render(s, i, PaintOf(paints, i)), i + 1, paints);
      } else {
        RenderFromKeeps(s, i + 1, paints);
      }
    }
  }

  lemma ConfiguredSame(s: State, s': State)
    requires SameBut(s, s')
    ensures AnyConfigured(s') <==> AnyConfigured(s)
  {
    if i :| 0 <= i < |s.outputs| && s.outputs[i].configured {
      assert s'.outputs[i].configured;
    }
    if i :| 0 <= i < |s'.outputs| && s'.outputs[i].configured {
      assert s.outputs[i].configured;
    }
  }

  lemma RenderAllKeeps(s: State, paints: seq<Paint>)
    requires Inv(s)
    ensures Inv(RenderAll(s, paints)) && SameBut(s, RenderAll(s, paints))
  {
    RenderFromKeeps(s, 0, paints);
    ConfiguredSame(s, RenderAll(s, paints));
  }

  // ---------------------------------------------------------------- steps

  lemma SnocEarned(facts: seq<Fact>, f: Fact)
    requires UnlocksEarned(facts) && (f.Unlocked? ==> HasAuthenticated(facts))
    ensures UnlocksEarned(facts + [f])
    ensures HasAuthenticated(facts) || f.Authenticated? ==> HasAuthenticated(facts + [f])
  {
    var more := facts + [f];
    forall j | 0 <= j < |more| && more[j].Unlocked? ensures exists i :: 0 <= i < j && more[i].Authenticated? {
      if j < |facts| {
        var i :| 0 <= i < j && facts[i].Authenticated?;
        assert more[i].Authenticated?;
      } else {
        var i :| 0 <= i < |facts| && facts[i].Authenticated?;
        assert more[i].Authenticated?;
      }
    }
    if HasAuthenticated(facts) {
      var i :| 0 <= i < |facts| && facts[i].Authenticated?;
      assert more[i].Authenticated?;
    } else if f.Authenticated? {
      assert more[|facts|].Authenticated?;
    }
  }

  lemma UnlockKeeps(s: State)
    requires Earned(s) && FramesSane(s) && PasswordFits(s) && HasAuthenticated(s.facts)
    ensures Inv(Unlock(s))
  {
    SnocEarned(s.facts, Unlocked);
  }

  lemma BeginLeaveKeeps(s: State, paints: seq<Paint>)
    requires Inv(s) && HasAuthenticated(s.facts)
    ensures Inv(BeginLeave(s, paints))
  {
    if s.phase != Leave {
      if !AnyConfigured(s) {
        UnlockKeeps(s);
      } else {
        var s1 := s.(shaking := false, phase := Leave, started := false);
        RenderFromKeeps(s1, 0, paints);
        ConfiguredSame(s1, RenderAll(s1, paints));
      }
    }
  }

  lemma FrameDoneKeeps(s: State, i: nat, elapsed: bool, p: Paint)
    requires Inv(s) && i < |s.outputs| && s.outputs[i].frame
    ensures Inv(FrameDone(s, i, elapsed, p))
  {
    var s1 := SetOutput(s, i, s.outputs[i].(frame := false));
    if s1.phase == Leave && s1.started && elapsed {
      UnlockKeeps(s1.(phase := Idle));
    } else {
      RenderKeeps(s1, i, p);
      ConfiguredAt(s, Render(s1, i, p));
    }
  }

  /** Configured outputs stay configured. */
  lemma ConfiguredAt(s: State, s': State)
    requires |s'.outputs| == |s.outputs|
    requires forall i :: 0 <= i < |s.outputs| && s.outputs[i].configured ==> s'.outputs[i].configured
    ensures AnyConfigured(s) ==> AnyConfigured(s')
  {
  }

  lemma ConfigureKeeps(s: State, i: nat, p: Paint)
    requires Inv(s) && i < |s.outputs|
    ensures Inv(Configure(s, i, p))
  {
    var s1 := SetOutput(s, i, s.outputs[i].(configured := true));
    RenderKeeps(s1, i, p);
    ConfiguredAt(s, Render(s1, i, p));
  }

  lemma RemoveKeeps(s: State, name: nat)
    requires Inv(s)
    ensures Inv(RemoveOutput(s, name))
  {
    var at := Find(s.outputs, name, 0);
    if at >= 0 {
      var s1 := s.(outputs := s.outputs[..at] + s.outputs[at + 1..]);
      assert forall i :: 0 <= i < |s1.outputs| ==> s1.outputs[i] == s.outputs[if i < at then i else i + 1];
      if s1.phase == Leave && !AnyConfigured(s1) {
        UnlockKeeps(s1);
      }
    }
  }

  lemma AddKeeps(s: State, name: nat)
    requires Inv(s)
    ensures Inv(AddOutput(s, name))
  {
    var s' := AddOutput(s, name);
    assert forall i :: 0 < i < |s'.outputs| ==> s'.outputs[i] == s.outputs[i - 1];
    if i :| 0 <= i < |s.outputs| && s.outputs[i].configured {
      assert s'.outputs[i + 1].configured;
    }
  }

  lemma LockConfirmedKeeps(s: State)
    requires Inv(s)
    ensures Inv(LockConfirmed(s))
  {
    ConfiguredAt(s, LockConfirmed(s));
  }

  lemma FactKeeps(s: State, f: Fact)
    requires Inv(s) && !f.Unlocked?
    ensures Inv(s.(facts := s.facts + [f]))
    ensures HasAuthenticated(s.facts) || f.Authenticated? ==> HasAuthenticated(s.facts + [f])
  {
    SnocEarned(s.facts, f);
  }

  lemma SubmitKeeps(s: State, granted: bool, first: seq<Paint>, second: seq<Paint>)
    requires Inv(s)
    ensures Inv(Submit(s, granted, first, second))
  {
    if s.password != [] {
      RenderAllKeeps(s, first);
      var asked := RenderAll(s, first);
      FactKeeps(asked.(password := []), Attempted(s.password));
      var wiped := asked.(password := [], facts := asked.facts + [Attempted(s.password)]);
      if granted {
        FactKeeps(wiped, Authenticated);
        BeginLeaveKeeps(wiped.(facts := wiped.facts + [Authenticated]), second);
      } else {
        RenderAllKeeps(wiped.(shaking := wiped.shaking || !wiped.reduced), second);
      }
    }
  }

  lemma KeyPressKeeps(s: State, k: KeyAction, first: seq<Paint>, second: seq<Paint>)
    requires Inv(s)
    ensures Inv(KeyPress(s, k, first, second))
  {
    if s.phase != Leave {
      match k
      case EnterKey(granted) => SubmitKeeps(s, granted, first, second);
      case BackSpace =>
        RenderAllKeeps(if s.password != [] then s.(password := s.password[..|s.password| - 1]) else s, first);
      case Escape => RenderAllKeeps(s.(password := []), first);
      case MediaKey =>
      case TypeText(text) =>
        if Fits(s, text) {
          RenderAllKeeps(s.(password := s.password + text), first);
        }
    }
  }

  lemma StepKeeps(s: State, e: Event)
    requires Inv(s) && Enabled(s, e)
    ensures Inv(Step(s, e))
  {
    match e
    case FrameEvent(i, elapsed, p) => FrameDoneKeeps(s, i, elapsed, p);
    case ConfigureEvent(i, p) => ConfigureKeeps(s, i, p);
    case OutputAdded(name) => AddKeeps(s, name);
    case OutputRemoved(name) => RemoveKeeps(s, name);
    case LockedEvent => LockConfirmedKeeps(s);
    case FinishedEvent =>
    case KeyEvent(key, first, second) => KeyPressKeeps(s, key, first, second);
    case FingerprintEvent(first, second) =>
      FactKeeps(s, Authenticated);
      RenderAllKeeps(s.(facts := s.facts + [Authenticated]), first);
      BeginLeaveKeeps(RenderAll(s.(facts := s.facts + [Authenticated]), first), second);
    case RepaintEvent(first) => RenderAllKeeps(s, first);
  }

  lemma {:induction false} RunKeeps(reduced: bool, events: seq<Event>)
    ensures Inv(Run(reduced, events))
    decreases |events|
  {
    if events != [] {
      var before, e := events[..|events| - 1], events[|events| - 1];
      RunKeeps(reduced, before);
      if Enabled(Run(reduced, before), e) {
        StepKeeps(Run(reduced, before), e);
      }
    }
  }

  // ---------------------------------------------------------------- the promises

  /** In every run, each unlock request is preceded by a successful authentication. */
  lemma UnlockNeedsAuthentication(reduced: bool, events: seq<Event>)
    ensures UnlocksEarned(Run(reduced, events).facts)
    ensures Run(reduced, events).phase == Leave ==> HasAuthenticated(Run(reduced, events).facts)
  {
    RunKeeps(reduced, events);
  }

  /** While leaving and still running, some output is configured, and a configured output
      has a frame callback pending exactly when its last paint found a buffer. */
  lemma LeavingIsNotStranded(reduced: bool, events: seq<Event>)
    ensures var s := Run(reduced, events);
            s.phase == Leave && s.running ==>
              && (exists i :: 0 <= i < |s.outputs| && s.outputs[i].configured)
              && forall i :: 0 <= i < |s.outputs| && s.outputs[i].configured ==> (s.outputs[i].frame <==> !s.outputs[i].starved)
  {
    RunKeeps(reduced, events);
    var s := Run(reduced, events);
    if s.phase == Leave && s.running {
      forall i | 0 <= i < |s.outputs| && s.outputs[i].configured ensures s.outputs[i].frame <==> !s.outputs[i].starved {
        assert Ticking(s.outputs[i]);
      }
    }
  }

  // ---------------------------------------------------------------- when every buffer is found

  ghost predicate Fed(paints: seq<Paint>) { forall i :: 0 <= i < |paints| ==> paints[i].buffer }

  /** Every paint this event causes finds a buffer. */
  ghost predicate EventFed(e: Event) {
    match e
    case FrameEvent(_, _, p) => p.buffer
    case ConfigureEvent(_, p) => p.buffer
    case KeyEvent(_, first, second) => Fed(first) && Fed(second)
    case FingerprintEvent(first, second) => Fed(first) && Fed(second)
    case RepaintEvent(first) => Fed(first)
    case _ => true
  }

  ghost predicate NoneStarved(s: State) { forall i :: 0 <= i < |s.outputs| ==> !s.outputs[i].starved }

  lemma RenderFeeds(s: State, i: nat, p: Paint)
    requires NoneStarved(s) && i < |s.outputs| && p.buffer
    ensures NoneStarved(Render(s, i, p))
  {
    RenderRepaints(s, i, p);
  }

  lemma {:induction false} RenderFromFeeds(s: State, i: nat, paints: seq<Paint>)
    requires NoneStarved(s) && Fed(paints)
    ensures NoneStarved(RenderFrom(s, i, paints))
    decreases |s.outputs| - i
  {
    if i < |s.outputs| {
      var next := if s.outputs[i].configured then Render(s, i, PaintOf(paints, i)) else s;
      if s.outputs[i].configured {
        RenderFeeds(s, i, PaintOf(paints, i));
        RenderRepaints(s, i, PaintOf(paints, i));
      }
      RenderFromFeeds(next, i + 1, paints);
    }
  }

  lemma BeginLeaveFeeds(s: State, paints: seq<Paint>)
    requires NoneStarved(s) && Fed(paints)
    ensures NoneStarved(BeginLeave(s, paints))
  {
    if s.phase != Leave && AnyConfigured(s) {
      RenderFromFeeds(s.(shaking := false, phase := Leave, started := false), 0, paints);
    }
  }

  lemma SubmitFeeds(s: State, granted: bool, first: seq<Paint>, second: seq<Paint>)
    requires NoneStarved(s) && Fed(first) && Fed(second)
    ensures NoneStarved(Submit(s, granted, first, second))
  {
    if s.password != [] {
      RenderFromFeeds(s, 0, first);
      var asked := RenderAll(s, first);
      var wiped := asked.(password := [], facts := asked.facts + [Attempted(s.password)]);
      if granted {
        BeginLeaveFeeds(wiped.(facts := wiped.facts + [Authenticated]), second);
      } else {
        RenderFromFeeds(wiped.(shaking := wiped.shaking || !wiped.reduced), 0, second);
      }
    }
  }

  lemma KeyPressFeeds(s: State, k: KeyAction, first: seq<Paint>, second: seq<Paint>)
    requires NoneStarved(s) && Fed(first) && Fed(second)
    ensures NoneStarved(KeyPress(s, k, first, second))
  {
    match k
    case EnterKey(granted) => SubmitFeeds(s, granted, first, second);
    case BackSpace => RenderFromFeeds(if s.password != [] then s.(password := s.password[..|s.password| - 1]) else s, 0, first);
    case Escape => RenderFromFeeds(s.(password := []), 0, first);
    case MediaKey =>
    case TypeText(text) => RenderFromFeeds(s.(password := s.password + text), 0, first);
  }

  lemma StepFeeds(s: State, e: Event)
    requires NoneStarved(s) && Enabled(s, e) && EventFed(e)
    ensures NoneStarved(Step(s, e))
  {
    match e
    case FrameEvent(i, elapsed, p) => RenderFeeds(SetOutput(s, i, s.outputs[i].(frame := false)), i, p);
    case ConfigureEvent(i, p) => RenderFeeds(SetOutput(s, i, s.outputs[i].(configured := true)), i, p);
    case KeyEvent(key, first, second) => KeyPressFeeds(s, key, first, second);
    case FingerprintEvent(first, second) =>
      var matched := s.(facts := s.facts + [Authenticated]);
      RenderFromFeeds(matched, 0, first);
      BeginLeaveFeeds(RenderAll(matched, first), second);
    case RepaintEvent(first) => RenderFromFeeds(s, 0, first);
    case _ =>
  }

  lemma {:induction false} RunFeeds(reduced: bool, events: seq<Event>)
    requires forall k :: 0 <= k < |events| ==> EventFed(events[k])
    ensures NoneStarved(Run(reduced, events))
    decreases |events|
  {
    if events != [] {
      var before, e := events[..|events| - 1], events[|events| - 1];
      RunFeeds(reduced, before);
      if Enabled(Run(reduced, before), e) {
        StepFeeds(Run(reduced, before), e);
      }
    }
  }

  /** Leaving cannot be stranded: in every run whose paints all find buffers, while leaving and
      still running some output is configured and every configured output has a frame callback
      pending, across hotplug, configure and repaint events. */
  lemma LeavingKeepsCallbacks(reduced: bool, events: seq<Event>)
    requires forall k :: 0 <= k < |events| ==> EventFed(events[k])
    ensures var s := Run(reduced, events);
            s.phase == Leave && s.running ==>
              && (exists i :: 0 <= i < |s.outputs| && s.outputs[i].configured)
              && forall i :: 0 <= i < |s.outputs| && s.outputs[i].configured ==> s.outputs[i].frame
  {
    LeavingIsNotStranded(reduced, events);
    RunFeeds(reduced, events);
  }

  /** Once the animation time is over, at most two frames on any output with a pending
      callback unlock the session: the first may only start the clock. */
  lemma LeavingCompletes(s: State, i: nat, p: Paint, q: Paint)
    requires Inv(s) && s.phase == Leave && i < |s.outputs| && s.outputs[i].frame && p.buffer
    ensures var s1 := FrameDone(s, i, true, p);
            if s.started then !s1.running && s1.facts == s.facts + [Unlocked]
            else i < |s1.outputs| && s1.outputs[i].frame &&
                 var s2 := FrameDone(s1, i, true, q); !s2.running && s2.facts == s.facts + [Unlocked]
  {
    if !s.started {
      RenderKeeps(SetOutput(s, i, s.outputs[i].(frame := false)), i, p);
    }
  }
}
