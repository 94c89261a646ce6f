/** Over every run keys are let go and the layout in use is the last one chosen. */
module TypingHands {
  import opened Basics
  import opened Keyboard
  import opened TypingSpec
  import opened TypingTheorems

  // ---------------------------------------------------------------- no key stays held

  lemma TouchOne(h: Hands, r: Request)
    ensures TouchAll(h, [r]) == Touch(h, r)
  {
    assert TouchAll(Touch(h, r), []) == Touch(h, r);
  }

  /** One press takes its key and lets it go. */
  lemma PressLetsGo(code: nat, mask: Mask)
    ensures TouchAll(NO_HANDS, Press(code, mask)) == NO_HANDS
  {
    var down, up := Key(code, true), Key(code, false);
    TouchOne(NO_HANDS, Modifiers(mask));
    TouchConcat(NO_HANDS, [Modifiers(mask)], [down]);
    TouchOne(NO_HANDS, down);
    TouchConcat(NO_HANDS, [Modifiers(mask)] + [down], [up]);
    TouchOne(Hands({code}, true), up);
    assert Press(code, mask) == [Modifiers(mask)] + [down] + [up] + (if mask != 0 then [Modifiers(0)] else []);
    TouchOne(NO_HANDS, Modifiers(0));
    TouchConcat(NO_HANDS, [Modifiers(mask)] + [down] + [up], if mask != 0 then [Modifiers(0)] else []);
    assert {code} - {code} == {};
  }

  lemma PressCharLetsGo(s: State, cp: Char)
    ensures TouchAll(NO_HANDS, PressChar(s, cp)) == NO_HANDS
  {
    if s.runInLayout {
      if FindLayoutKey(s.layout, cp).Some? {
        PressLetsGo(FindLayoutKey(s.layout, cp).value.code, FindLayoutKey(s.layout, cp).value.mask);
      }
    } else if BatchIndex(s.batch, cp) >= 0 {
      PressLetsGo(BatchIndex(s.batch, cp) + 1, 0);
    }
  }

  lemma {:induction false} PressCharsLetGo(s: State, chars: seq<Char>, i: nat, end: nat)
    ensures TouchAll(NO_HANDS, PressChars(s, chars, i, end)) == NO_HANDS
    decreases end - i
  {
    if i < end && i < |chars| {
      PressCharLetsGo(s, chars[i]);
      PressCharsLetGo(s, chars, i + 1, end);
      TouchConcat(NO_HANDS, PressChar(s, chars[i]), PressChars(s, chars, i + 1, end));
    }
  }

  ghost predicate HandsOff(s: State) { TouchAll(NO_HANDS, s.trace) == NO_HANDS }

  lemma PressRunLetsGo(s: State)
    requires s.jobs != [] && HandsOff(s)
    ensures HandsOff(PressRun(s))
  {
    var run := PressChars(s, s.jobs[0].chars, s.jobs[0].pos, s.runEnd);
    PressCharsLetGo(s, s.jobs[0].chars, s.jobs[0].pos, s.runEnd);
    TouchConcat(NO_HANDS, s.trace, run);
  }

  lemma UploadLetsGo(s: State, km: Keymap, kind: Uploaded)
    requires HandsOff(s)
    ensures HandsOff(Upload(s, km, kind))
  {
    TouchConcat(NO_HANDS, s.trace, [SetKeymap(km), Modifiers(0)]);
    TouchConcat(NO_HANDS, [SetKeymap(km)], [Modifiers(0)]);
    TouchOne(NO_HANDS, SetKeymap(km));
    TouchOne(NO_HANDS, Modifiers(0));
    assert [SetKeymap(km)] + [Modifiers(0)] == [SetKeymap(km), Modifiers(0)];
  }

  lemma RunJobLetsGo(s: State, ok: bool)
    requires HandsOff(s)
    ensures HandsOff(RunJob(s, ok))
  {
    if s.jobs != [] {
      var job := s.jobs[0];
      if s.runPending {
        PressRunLetsGo(s.(runPending := false));
      } else if StartsLayoutRun(s) {
        var run := s.(runEnd := LayoutRunEnd(s.layout, job.chars, job.pos), runInLayout := true);
        UploadLetsGo(run, s.layout.keymap, LayoutUploaded);
        PressRunLetsGo(run);
      } else if StartsCustomRun(s) {
        var (batch, end) := CollectBatch(s.layout, job.chars, job.pos, []);
        UploadLetsGo(s.(runInLayout := false, batch := batch, runEnd := end), GeneratedKeymap(batch), CustomUploaded);
      }
    }
  }

  /** After every sequence of events whatsoever no key is held; no key was pressed while it was
      held or let go while it was not. */
  lemma {:induction false} NoKeyStaysHeld(events: seq<Event>)
    ensures TouchAll(NO_HANDS, Run(events).trace) == NO_HANDS
    decreases |events|
  {
    if events != [] {
      var before, e := events[..|events| - 1], events[|events| - 1];
      NoKeyStaysHeld(before);
      if RunsFrom(Run(before), e).Some? {
        RunJobLetsGo(RunsFrom(Run(before), e).value, e.ok);
      }
    }
  }

  // ---------------------------------------------------------------- the layout in use

  /** The last layout that compiled. */
  function LastLayout(events: seq<Event>): UserLayout {
    if events == [] then NoLayout
    else
      var e := events[|events| - 1];
      if e.SetLayout? && e.compiled.Some? && e.compiled.value.Layout? then
        Loaded(LayoutTable(e.compiled.value), e.compiled.value, e.hasText)
      else LastLayout(events[..|events| - 1])
  }

  lemma RunJobKeepsLayout(s: State, ok: bool)
    ensures RunJob(s, ok).layout == s.layout
  {
  }

  /** The layout in use is the last one that compiled. */
  lemma {:induction false} LayoutIsLast(events: seq<Event>)
    ensures Run(events).layout == LastLayout(events)
    decreases |events|
  {
    if events != [] {
      var before, e := events[..|events| - 1], events[|events| - 1];
      LayoutIsLast(before);
      if RunsFrom(Run(before), e).Some? {
        RunJobKeepsLayout(RunsFrom(Run(before), e).value, e.ok);
      }
    }
  }
}
