/** Exactly when typed text arrives, over every run. */
module TypingExact {
  import opened Basics
  import opened Keyboard
  import opened TypingSpec
  import opened TypingTheorems
  import opened TypingProgress

  // ---------------------------------------------------------------- one key

  /** What the key pressed for `cp` enters when the compositor's view is `v`. */
  function PressedText(s: State, v: View, cp: Char): seq<Char> {
    if v.keymap.None? then []
    else if s.runInLayout then
      match FindLayoutKey(s.layout, cp)
      case Some(key) => KeyText(v.keymap.value, (key.code + 8) % UINT32, key.mask)
      case None => []
    else
      var index := BatchIndex(s.batch, cp);
      if index >= 0 then KeyText(v.keymap.value, (index + 1 + 8) % UINT32, 0) else []
  }

  /** The key pressed for `cp` enters `cp`, a carriage return read as a newline. */
  predicate Enters(s: State, v: View, cp: Char) { PressedText(s, v, cp) == [Newline(cp)] }

  /** Every character of [from, to) is entered by its key. */
  ghost predicate RunEnters(s: State, v: View, chars: seq<Char>, from: nat, to: nat)
    requires to <= |chars|
  {
    forall k :: from <= k < to ==> Enters(s, v, chars[k])
  }

  function RunText(s: State, v: View, chars: seq<Char>, i: nat, end: nat): seq<Char>
    requires end <= |chars|
    decreases end - i
  {
    if i >= end then [] else PressedText(s, v, chars[i]) + RunText(s, v, chars, i + 1, end)
  }

  lemma {:induction false} LevelTextShort(levels: seq<Level>, mask: Mask)
    ensures |LevelText(levels, mask)| <= 1
    decreases |levels|
  {
    if levels != [] {
      LevelTextShort(levels[1..], mask);
    }
  }

  lemma {:induction false} GeneratedTextShort(codes: seq<nat>, syms: seq<Keysym>, keycode: nat)
    ensures |GeneratedText(codes, syms, keycode)| <= 1
    decreases |codes|
  {
    if codes != [] && syms != [] {
      GeneratedTextShort(codes[1..], syms[1..], keycode);
    }
  }

  /** A key enters at most one character. */
  lemma KeyTextShort(km: Keymap, keycode: nat, mask: Mask)
    ensures |KeyText(km, keycode, mask)| <= 1
  {
    match km
    case Layout(_, _, _) => LevelTextShort(LevelsOf(km, keycode), mask);
    case Generated(codes, syms) => GeneratedTextShort(codes, syms, keycode);
  }

  lemma PressedTextShort(s: State, v: View, cp: Char)
    ensures |PressedText(s, v, cp)| <= 1
  {
    if v.keymap.Some? {
      if s.runInLayout {
        if FindLayoutKey(s.layout, cp).Some? {
          var key := FindLayoutKey(s.layout, cp).value;
          KeyTextShort(v.keymap.value, (key.code + 8) % UINT32, key.mask);
        }
      } else if BatchIndex(s.batch, cp) >= 0 {
        KeyTextShort(v.keymap.value, (BatchIndex(s.batch, cp) + 1 + 8) % UINT32, 0);
      }
    }
  }

  /** Two views that agree on everything but legality. */
  predicate SameButLegal(a: View, b: View) { a.keymap == b.keymap && a.mods == b.mods && a.text == b.text }

  /** Before any keymap, modifiers and key requests only cost the trace its legality. */
  lemma {:induction false} NoKeymapNoText(v: View, trace: seq<Request>)
    requires v.keymap.None? && forall i :: 0 <= i < |trace| ==> !trace[i].SetKeymap?
    ensures SameButLegal(Replay(v, trace), v)
    decreases |trace|
  {
    if trace != [] {
      NoKeymapNoText(Apply(v, trace[0]), trace[1..]);
    }
  }

  lemma PressCharEnters(s: State, v: View, cp: Char)
    requires v.mods == 0
    ensures SameButLegal(Replay(v, PressChar(s, cp)), v.(text := v.text + PressedText(s, v, cp)))
  {
    if v.keymap.None? {
      NoKeymapNoText(v, PressChar(s, cp));
    } else if s.runInLayout {
      if FindLayoutKey(s.layout, cp).Some? {
        var key := FindLayoutKey(s.layout, cp).value;
        PressTypes(v, key.code, key.mask);
      }
    } else if BatchIndex(s.batch, cp) >= 0 {
      PressTypes(v, BatchIndex(s.batch, cp) + 1, 0);
    }
  }

  // ---------------------------------------------------------------- one run

  lemma PressedUnder(s: State, v: View, w: View, cp: Char)
    requires w.keymap == v.keymap
    ensures PressedText(s, w, cp) == PressedText(s, v, cp)
  {
  }

  lemma {:induction false} RunTextUnder(s: State, v: View, w: View, chars: seq<Char>, i: nat, end: nat)
    requires w.keymap == v.keymap && end <= |chars|
    ensures RunText(s, w, chars, i, end) == RunText(s, v, chars, i, end)
    decreases end - i
  {
    if i < end {
      PressedUnder(s, v, w, chars[i]);
      RunTextUnder(s, v, w, chars, i + 1, end);
    }
  }

  lemma {:induction false} PressCharsEnter(s: State, v: View, chars: seq<Char>, i: nat, end: nat)
    requires v.mods == 0 && end <= |chars|
    ensures SameButLegal(Replay(v, PressChars(s, chars, i, end)), v.(text := v.text + RunText(s, v, chars, i, end)))
    decreases end - i
  {
    if i < end {
      var head, tail := PressChar(s, chars[i]), PressChars(s, chars, i + 1, end);
      var v1 := Replay(v, head);
      PressCharEnters(s, v, chars[i]);
      PressCharsEnter(s, v1, chars, i + 1, end);
      RunTextUnder(s, v, v1, chars, i + 1, end);
      ReplayConcat(v, head, tail);
      ConcatAssoc(v.text, PressedText(s, v, chars[i]), RunText(s, v, chars, i + 1, end));
    }
  }

  lemma SameConcat(a: seq<Char>, b: seq<Char>, c: seq<Char>, d: seq<Char>)
    requires |a| <= |c| && |b| <= |d|
    ensures a + b == c + d <==> a == c && b == d
  {
    if a + b == c + d {
      assert |a + b| == |a| + |b| && |c + d| == |c| + |d|;
      assert (a + b)[..|a|] == a && (c + d)[..|c|] == c;
      assert (a + b)[|a|..] == b && (c + d)[|c|..] == d;
    }
  }

  /** A run enters at most its length, and exactly its text when each of its keys does. */
  lemma {:induction false} RunTextExact(s: State, v: View, chars: seq<Char>, i: nat, end: nat)
    requires i <= end <= |chars|
    ensures |RunText(s, v, chars, i, end)| <= end - i
    ensures RunText(s, v, chars, i, end) == Read(chars[i..end]) <==> RunEnters(s, v, chars, i, end)
    decreases end - i
  {
    if i < end {
      PressedTextShort(s, v, chars[i]);
      RunTextExact(s, v, chars, i + 1, end);
      ReadCons(chars, i, end);
      SameConcat(PressedText(s, v, chars[i]), RunText(s, v, chars, i + 1, end), [Newline(chars[i])], Read(chars[i + 1..end]));
      assert RunEnters(s, v, chars, i, end) <==> Enters(s, v, chars[i]) && RunEnters(s, v, chars, i + 1, end);
    } else {
      assert Read(chars[i..end]) == [];
    }
  }

  /** Pressing a run delivers its text exactly when every key, found in the layout or batch of
      now and pressed under the keymap in force, enters its own character. */
  lemma PressRunExact(s: State)
    requires s.jobs != [] && s.jobs[0].pos <= s.runEnd <= |s.jobs[0].chars| && Delivered(s).mods == 0
    ensures var job, v, w := s.jobs[0], Delivered(s), Delivered(PressRun(s));
            && w.mods == 0 && w.keymap == v.keymap
            && v.text <= w.text && |w.text| <= |v.text| + (s.runEnd - job.pos)
            && (w.text == v.text + Read(job.chars[job.pos..s.runEnd]) <==>
                RunEnters(s, v, job.chars, job.pos, s.runEnd))
  {
    var job, v := s.jobs[0], Delivered(s);
    var typed := RunText(s, v, job.chars, job.pos, s.runEnd);
    ReplayConcat(FRESH_VIEW, s.trace, PressChars(s, job.chars, job.pos, s.runEnd));
    PressCharsEnter(s, v, job.chars, job.pos, s.runEnd);
    RunTextExact(s, v, job.chars, job.pos, s.runEnd);
    SameConcat(v.text, typed, v.text, Read(job.chars[job.pos..s.runEnd]));
  }

  // ---------------------------------------------------------------- one firing

  /** The run a firing presses, if it presses one: the state it is pressed in. */
  function PressedRun(s: State, ok: bool): Option<State> {
    if s.jobs == [] then None
    else if s.runPending then Some(s.(runPending := false))
    else if StartsLayoutRun(s) && !(s.uploaded != LayoutUploaded && ok) then
      Some(s.(runEnd := LayoutRunEnd(s.layout, s.jobs[0].chars, s.jobs[0].pos), runInLayout := true))
    else None
  }

  /** A firing loses nothing: it gives up no job, and every key it presses enters its own
      character under the keymap in force. */
  ghost predicate Arrives(s: State, ok: bool) {
    && !(StartsCustomRun(s) && !ok)
    && (PressedRun(s, ok).Some? ==>
          var run := PressedRun(s, ok).value;
          && run.runEnd <= |run.jobs[0].chars|
          && RunEnters(run, Delivered(s), run.jobs[0].chars, run.jobs[0].pos, run.runEnd))
  }

  /** `taken` leaves the queue, and is what is added to the delivered text exactly when it
      `arrives`; otherwise no more than its length is added. */
  ghost predicate Moves(text: seq<Char>, text': seq<Char>, queue: seq<Char>, taken: seq<Char>, queue': seq<Char>, arrives: bool) {
    && queue == taken + queue'
    && text <= text' && |text'| <= |text| + |taken|
    && (text' == text + taken <==> arrives)
  }

  /** What a firing takes from the queue, and that it is delivered exactly when it arrives. */
  lemma FiringExact(s: State, ok: bool) returns (taken: seq<Char>)
    requires Shape(s.(timer := s.jobs != [])) && Delivered(s).mods == 0
    ensures Delivered(RunJob(s, ok)).mods == 0
    ensures Moves(Delivered(s).text, Delivered(RunJob(s, ok)).text, Remaining(s.jobs), taken, Remaining(RunJob(s, ok).jobs), Arrives(s, ok))
  {
    taken := [];
    if PressedRun(s, ok).Some? {
      taken := PressingExact(s, ok);
    } else if StartsLayoutRun(s) {
      LayoutRunSpec(s.layout, s.jobs[0].chars, s.jobs[0].pos);
      var run := s.(runEnd := LayoutRunEnd(s.layout, s.jobs[0].chars, s.jobs[0].pos), runInLayout := true);
      UploadReplays(run, s.layout.keymap, LayoutUploaded);
    } else if StartsCustomRun(s) {
      taken := CustomExact(s, ok);
    }
  }

  /** Pressing a run and finishing the head job: what leaves the queue is the run's text. */
  lemma PressedAndFinished(run: State, taken: seq<Char>)
    requires JobsWaiting(run) && run.jobs != [] && run.jobs[0].pos <= run.runEnd <= |run.jobs[0].chars| && Delivered(run).mods == 0
    requires taken == Read(run.jobs[0].chars[run.jobs[0].pos..run.runEnd])
    ensures var s' := Finish(PressRun(run));
            && Delivered(s').mods == 0
            && Moves(Delivered(run).text, Delivered(s').text, Remaining(run.jobs), taken, Remaining(s'.jobs),
                     RunEnters(run, Delivered(run), run.jobs[0].chars, run.jobs[0].pos, run.runEnd))
  {
    PressRunExact(run);
    HeadAdvances(run.jobs, run.runEnd);
    FinishMoves(PressRun(run));
  }

  lemma PressingExact(s: State, ok: bool) returns (taken: seq<Char>)
    requires Shape(s.(timer := s.jobs != [])) && Delivered(s).mods == 0 && PressedRun(s, ok).Some?
    ensures Delivered(RunJob(s, ok)).mods == 0
    ensures Moves(Delivered(s).text, Delivered(RunJob(s, ok)).text, Remaining(s.jobs), taken, Remaining(RunJob(s, ok).jobs), Arrives(s, ok))
  {
    var run := PressedRun(s, ok).value;
    if !s.runPending {
      LayoutRunSpec(s.layout, s.jobs[0].chars, s.jobs[0].pos);
    }
    taken := Read(run.jobs[0].chars[run.jobs[0].pos..run.runEnd]);
    PressedAndFinished(run, taken);
    assert RunJob(s, ok) == Finish(PressRun(run));
  }

  lemma CustomUploads(s: State)
    requires Delivered(s).mods == 0 && StartsCustomRun(s)
    ensures var s' := RunJob(s, true);
            s'.jobs == s.jobs && Delivered(s').text == Delivered(s).text && Delivered(s').mods == 0
  {
    var (batch, end) := CollectBatch(s.layout, s.jobs[0].chars, s.jobs[0].pos, []);
    var run := s.(runInLayout := false, batch := batch, runEnd := end);
    UploadReplays(run, GeneratedKeymap(batch), CustomUploaded);
  }

  lemma CustomGivesUp(s: State)
    requires StartsCustomRun(s)
    ensures RunJob(s, false).jobs == s.jobs[1..] && RunJob(s, false).trace == s.trace
  {
  }

  lemma CustomExact(s: State, ok: bool) returns (taken: seq<Char>)
    requires Delivered(s).mods == 0 && StartsCustomRun(s)
    ensures Delivered(RunJob(s, ok)).mods == 0
    ensures Moves(Delivered(s).text, Delivered(RunJob(s, ok)).text, Remaining(s.jobs), taken, Remaining(RunJob(s, ok).jobs), ok)
  {
    if ok {
      taken := [];
      CustomUploads(s);
    } else {
      taken := JobText(s.jobs[0]);
      CustomGivesUp(s);
    }
  }

  // ---------------------------------------------------------------- whole runs

  /** The event loses nothing. */
  ghost predicate EventArrives(s: State, e: Event) {
    RunsFrom(s, e).Some? && !e.SetLayout? ==> Arrives(RunsFrom(s, e).value, e.ok)
  }

  ghost predicate AllArrive(events: seq<Event>) {
    events == [] ||
    (AllArrive(events[..|events| - 1]) && EventArrives(Run(events[..|events| - 1]), events[|events| - 1]))
  }

  /** The state once the text of an event, if it brings any, is queued. */
  function Queued(s: State, e: Event): State { if Accepted(e) then Enqueue(s, e.text) else s }

  lemma QueuedText(s: State, e: Event)
    ensures Remaining(Queued(s, e).jobs) == Remaining(s.jobs) + Read(NewText(e))
  {
    if Accepted(e) {
      RemainingSnoc(s.jobs, e.text);
    } else {
      assert Remaining(s.jobs) + Read([]) == Remaining(s.jobs);
    }
  }

  lemma QueuedShape(s: State, e: Event)
    requires Shape(s)
    ensures Shape(Queued(s, e).(timer := Queued(s, e).jobs != []))
  {
  }

  lemma QueuedStep(s: State, e: Event)
    ensures Queued(s, e).trace == s.trace
    ensures RunsFrom(s, e).Some? ==> RunsFrom(s, e).value == Queued(s, e) && Step(s, e) == RunJob(Queued(s, e), e.ok)
    ensures RunsFrom(s, e).None? ==> Step(s, e).trace == s.trace && Step(s, e).jobs == Queued(s, e).jobs
  {
  }

  /** One event: what it adds to the queue, what it takes from it and what it delivers. */
  lemma EventExact(s: State, e: Event) returns (taken: seq<Char>)
    requires Shape(s) && Delivered(s).mods == 0
    ensures Delivered(Step(s, e)).mods == 0
    ensures Moves(Delivered(s).text, Delivered(Step(s, e)).text, Remaining(s.jobs) + Read(NewText(e)), taken,
                  Remaining(Step(s, e).jobs), EventArrives(s, e))
  {
    QueuedText(s, e);
    QueuedShape(s, e);
    QueuedStep(s, e);
    taken := [];
    if RunsFrom(s, e).Some? {
      taken := FiringExact(Queued(s, e), e.ok);
    }
  }

  lemma {:induction false} RunExact(events: seq<Event>) returns (done: seq<Char>)
    ensures Shape(Run(events)) && Delivered(Run(events)).mods == 0
    ensures Read(Requested(events)) == done + Remaining(Run(events).jobs)
    ensures |Delivered(Run(events)).text| <= |done|
    ensures Delivered(Run(events)).text == done <==> AllArrive(events)
    decreases |events|
  {
    AlwaysScheduled(events);
    if events == [] {
      done := [];
    } else {
      var before, e := events[..|events| - 1], events[|events| - 1];
      var s := Run(before);
      var done0 := RunExact(before);
      var taken := EventExact(s, e);
      done := done0 + taken;
      ReadConcat(Requested(before), NewText(e));
      ConcatAssoc(done0, Remaining(s.jobs), Read(NewText(e)));
      ConcatAssoc(done0, taken, Remaining(Step(s, e).jobs));
      var text, text' := Delivered(s).text, Delivered(Step(s, e)).text;
      var typed := text'[|text|..];
      assert text' == text + typed;
      SameConcat(text, typed, text, taken);
      SameConcat(text, typed, done0, taken);
    }
  }

  /** Exactly when the text arrives.  After every sequence of type calls, firings and layout
      changes, whatever uploads fail, the delivered text followed by the queued text is the
      requested text if and only if no job was given up and every key was pressed under a
      keymap that gives it its character. */
  lemma TextArrivesExactly(events: seq<Event>)
    ensures Delivered(Run(events)).text + Remaining(Run(events).jobs) == Read(Requested(events)) <==> AllArrive(events)
    ensures |Delivered(Run(events)).text| + |Remaining(Run(events).jobs)| <= |Read(Requested(events))|
  {
    var done := RunExact(events);
    var rest := Remaining(Run(events).jobs);
    SameConcat(Delivered(Run(events)).text, rest, done, rest);
  }

  /** In an undisturbed run nothing but a given-up job keeps text from arriving. */
  lemma {:induction false} UndisturbedArrives(events: seq<Event>)
    requires AllUndisturbed(events)
    ensures AllArrive(events) <==> AllLost(events) == 0
  {
    TypingPreservesText(events);
    TextArrivesExactly(events);
  }

  // ---------------------------------------------------------------- the two ways to disturb a run

  /** `table` finds a key for `cp` that enters `cp` under the keymap `km`. */
  predicate FindsKeyUnder(table: map<Char, LayoutKey>, km: Keymap, cp: Char) {
    && Newline(cp) in table
    && var key := table[Newline(cp)];
       KeyText(km, (key.code + 8) % UINT32, key.mask) == [Newline(cp)]
  }

  lemma LayoutKeyEnters(run: State, v: View, cp: Char)
    requires run.runInLayout && run.layout.Loaded?
    ensures Enters(run, v, cp) <==> v.keymap.Some? && FindsKeyUnder(run.layout.table, v.keymap.value, cp)
  {
  }

  lemma LayoutRunEnters(run: State, v: View, chars: seq<Char>, from: nat, to: nat)
    requires run.runInLayout && run.layout.Loaded? && to <= |chars|
    ensures v.keymap.Some? ==>
              (RunEnters(run, v, chars, from, to) <==>
               forall k :: from <= k < to ==> FindsKeyUnder(run.layout.table, v.keymap.value, chars[k]))
    ensures v.keymap.None? && from < to ==> !RunEnters(run, v, chars, from, to)
  {
    forall k | from <= k < to
      ensures Enters(run, v, chars[k]) <==> v.keymap.Some? && FindsKeyUnder(run.layout.table, v.keymap.value, chars[k])
    {
      LayoutKeyEnters(run, v, chars[k]);
    }
    if from < to {
      LayoutKeyEnters(run, v, chars[from]);
    }
  }

  lemma {:induction false} IllegalStays(v: View, trace: seq<Request>)
    requires !v.legal
    ensures !Replay(v, trace).legal
    decreases |trace|
  {
    if trace != [] {
      IllegalStays(Apply(v, trace[0]), trace[1..]);
    }
  }

  lemma {:induction false} KeymapKeepsLegal(v: View, trace: seq<Request>)
    requires v.legal && v.keymap.Some?
    ensures Replay(v, trace).legal
    decreases |trace|
  {
    if trace != [] {
      KeymapKeepsLegal(Apply(v, trace[0]), trace[1..]);
    }
  }

  /** A layout run is never empty where it starts, and its first request is a modifiers request. */
  lemma FailedUploadLegal(s: State)
    requires Shape(s) && Delivered(s).legal && StartsLayoutRun(s) && s.uploaded != LayoutUploaded
    ensures Delivered(RunJob(s, false)).legal <==> Delivered(s).keymap.Some?
  {
    var job := s.jobs[0];
    LayoutRunSpec(s.layout, job.chars, job.pos);
    var run := s.(runEnd := LayoutRunEnd(s.layout, job.chars, job.pos), runInLayout := true);
    var presses := PressChars(run, job.chars, job.pos, run.runEnd);
    ReplayConcat(FRESH_VIEW, s.trace, presses);
    if Delivered(s).keymap.Some? {
      KeymapKeepsLegal(Delivered(s), presses);
    } else {
      assert presses[0].Modifiers?;
      IllegalStays(Apply(Delivered(s), presses[0]), presses[1..]);
    }
  }

  /** A failed upload of the layout keymap still presses the keys of the run.  The requests stay
      legal exactly when some older keymap is in force, and the run's text arrives exactly when
      that keymap gives each key the layout finds the same character. */
  lemma FailedLayoutUpload(s: State)
    requires Shape(s) && Delivered(s).legal && Delivered(s).mods == 0 && StartsLayoutRun(s) && s.uploaded != LayoutUploaded
    ensures Delivered(RunJob(s, false)).legal <==> Delivered(s).keymap.Some?
    ensures var job, v := s.jobs[0], Delivered(s);
            var end := LayoutRunEnd(s.layout, job.chars, job.pos);
            && job.pos < end <= |job.chars|
            && (Delivered(RunJob(s, false)).text == v.text + Read(job.chars[job.pos..end]) <==>
                v.keymap.Some? && forall k :: job.pos <= k < end ==> FindsKeyUnder(s.layout.table, v.keymap.value, job.chars[k]))
  {
    FailedUploadLegal(s);
    var job := s.jobs[0];
    LayoutRunSpec(s.layout, job.chars, job.pos);
    var run := PressedRun(s, false).value;
    PressedAndFinished(run, Read(job.chars[job.pos..run.runEnd]));
    LayoutRunEnters(run, Delivered(s), job.chars, job.pos, run.runEnd);
    assert RunJob(s, false) == Finish(PressRun(run));
  }

  /** After a change of layout between the upload and the presses of a layout run, the run
      arrives exactly when the new layout finds, for each of its characters, a key that enters
      it under the old layout's keymap. */
  lemma MidRunChangeArrives(s: State, km: Keymap, hasText: bool, ok: bool)
    requires Inv(s) && s.runPending && s.runInLayout && km.Layout?
    ensures var job, s' := s.jobs[0], RunJob(ChangeLayout(s, km, hasText), ok);
            && job.pos <= s.runEnd <= |job.chars|
            && (Delivered(s').text == Delivered(s).text + Read(job.chars[job.pos..s.runEnd]) <==>
                forall k :: job.pos <= k < s.runEnd ==> FindsKeyUnder(LayoutTable(km), s.layout.keymap, job.chars[k]))
  {
    var job, changed := s.jobs[0], ChangeLayout(s, km, hasText);
    var run := changed.(runPending := false);
    assert Delivered(run) == Delivered(s);
    PressedAndFinished(run, Read(job.chars[job.pos..s.runEnd]));
    LayoutRunEnters(run, Delivered(s), job.chars, job.pos, s.runEnd);
    assert RunJob(changed, ok) == Finish(PressRun(run));
  }
}
