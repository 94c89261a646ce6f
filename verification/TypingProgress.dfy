/** Progress of the typing scheduler, and what the assumptions of its text theorem exclude. */
module TypingProgress {
  import opened Basics
  import opened Keyboard
  import opened TypingSpec
  import opened TypingTheorems

  function CharsLeft(jobs: seq<Job>): int {
    if jobs == [] then 0 else |jobs[0].chars| - jobs[0].pos + CharsLeft(jobs[1..])
  }

  /** Twice the characters left, less one while a run waits to be pressed. */
  function Measure(s: State): int {
    2 * CharsLeft(s.jobs) - (if s.runPending then 1 else 0)
  }

  /** What holds between events whatever the environment does. */
  ghost predicate Shape(s: State) {
    && JobsWaiting(s)
    && (s.timer <==> s.jobs != [])
    && (s.runPending ==> s.jobs != [] && s.jobs[0].pos <= s.runEnd <= |s.jobs[0].chars|)
  }

  /** A run is pending that will press nothing. */
  predicate EmptyRun(s: State) {
    s.runPending && s.jobs != [] && s.jobs[0].pos == s.runEnd
  }

  /** The head job stands at a layout character although the layout has no keymap text. */
  predicate Stuck(s: State) {
    && s.jobs != [] && s.jobs[0].pos < |s.jobs[0].chars|
    && FindLayoutKey(s.layout, s.jobs[0].chars[s.jobs[0].pos]).Some? && !s.layout.hasText
  }

  lemma {:induction false} CharsLeftPositive(jobs: seq<Job>)
    requires forall i :: 0 <= i < |jobs| ==> jobs[i].pos < |jobs[i].chars|
    ensures CharsLeft(jobs) >= |jobs|
    decreases |jobs|
  {
    if jobs != [] {
      CharsLeftPositive(jobs[1..]);
    }
  }

  lemma AdvanceMeasure(s: State, end: nat)
    requires s.jobs != [] && JobsWaiting(s) && s.jobs[0].pos <= end <= |s.jobs[0].chars|
    ensures var jobs' := Finish(s.(jobs := s.jobs[0 := s.jobs[0].(pos := end)])).jobs;
            CharsLeft(jobs') == CharsLeft(s.jobs) - (end - s.jobs[0].pos)
  {
    var moved := s.jobs[0 := s.jobs[0].(pos := end)];
    assert moved[1..] == s.jobs[1..];
  }

  lemma AdvanceShape(s: State, end: nat)
    requires s.jobs != [] && JobsWaiting(s) && end <= |s.jobs[0].chars| && !s.runPending
    ensures Shape(Finish(s.(jobs := s.jobs[0 := s.jobs[0].(pos := end)])))
  {
    FinishMoves(s.(jobs := s.jobs[0 := s.jobs[0].(pos := end)]));
  }

  lemma PressRunJobs(s: State)
    requires s.jobs != []
    ensures Finish(PressRun(s)).jobs == Finish(s.(jobs := s.jobs[0 := s.jobs[0].(pos := s.runEnd)])).jobs
    ensures Finish(PressRun(s)).timer == Finish(s.(jobs := s.jobs[0 := s.jobs[0].(pos := s.runEnd)])).timer
    ensures Finish(PressRun(s)).runPending == s.runPending
  {
  }

  lemma PressingProgress(s: State)
    requires JobsWaiting(s) && s.jobs != [] && !s.runPending && s.jobs[0].pos <= s.runEnd <= |s.jobs[0].chars|
    ensures var s' := Finish(PressRun(s));
            Shape(s') && !s'.runPending && CharsLeft(s'.jobs) == CharsLeft(s.jobs) - (s.runEnd - s.jobs[0].pos)
  {
    AdvanceMeasure(s, s.runEnd);
    AdvanceShape(s, s.runEnd);
    PressRunJobs(s);
  }

  lemma LayoutProgress(s: State, ok: bool)
    requires Shape(s.(timer := true)) && StartsLayoutRun(s)
    ensures Shape(RunJob(s, ok)) && Measure(RunJob(s, ok)) < Measure(s) && !EmptyRun(RunJob(s, ok))
  {
    var job := s.jobs[0];
    LayoutRunSpec(s.layout, job.chars, job.pos);
    var run := s.(runEnd := LayoutRunEnd(s.layout, job.chars, job.pos), runInLayout := true);
    PressingProgress(run);
  }

  lemma CustomProgress(s: State, ok: bool)
    requires Shape(s.(timer := true)) && StartsCustomRun(s)
    ensures Shape(RunJob(s, ok)) && Measure(RunJob(s, ok)) < Measure(s)
    ensures EmptyRun(RunJob(s, ok)) <==> ok && Stuck(s)
  {
    var job := s.jobs[0];
    GeneratedBatch(s.layout, job.chars, job.pos);
    var (batch, end) := CollectBatch(s.layout, job.chars, job.pos, []);
    var run := s.(runInLayout := false, batch := batch, runEnd := end);
    if !ok {
      AdvanceMeasure(run, |job.chars|);
      AdvanceShape(run, |job.chars|);
    }
  }

  /** Every firing keeps the shape, and it makes progress exactly when the pending run, if
      any, is not empty; no assumption is made about uploads. */
  lemma FiringProgress(s: State, ok: bool)
    requires Shape(s.(timer := true)) && s.jobs != []
    ensures Shape(RunJob(s, ok))
    ensures Measure(RunJob(s, ok)) < Measure(s) <==> !EmptyRun(s)
    ensures EmptyRun(RunJob(s, ok)) <==> StartsCustomRun(s) && ok && Stuck(s)
  {
    assert s.jobs[0].pos < |s.jobs[0].chars|;
    if s.runPending {
      PressingProgress(s.(runPending := false));
    } else if StartsLayoutRun(s) {
      LayoutProgress(s, ok);
    } else {
      CustomProgress(s, ok);
    }
  }

  /** At rest the queue is non-empty exactly when a timer is pending, and no queued job is
      finished, after every sequence of events whatsoever. */
  lemma {:induction false} AlwaysScheduled(events: seq<Event>)
    ensures Shape(Run(events))
    decreases |events|
  {
    if events != [] {
      var before, e := events[..|events| - 1], events[|events| - 1];
      AlwaysScheduled(before);
      var s := Run(before);
      if RunsFrom(s, e).Some? {
        assert Shape(RunsFrom(s, e).value.(timer := true));
        FiringProgress(RunsFrom(s, e).value, e.ok);
      }
    }
  }

  ghost predicate Lively(s: State) {
    Shape(s) && !EmptyRun(s) && (s.layout.Loaded? ==> s.layout.hasText)
  }

  function RunFrom(s: State, events: seq<Event>): State
    decreases |events|
  {
    if events == [] then s else RunFrom(Step(s, events[0]), events[1..])
  }

  /** How often the timer fires among `events`. */
  function Firings(events: seq<Event>): nat {
    if events == [] then 0 else (if events[0].Timer? then 1 else 0) + Firings(events[1..])
  }

  /** How many texts `events` queue. */
  function Arrivals(events: seq<Event>): nat {
    if events == [] then 0 else (if Accepted(events[0]) then 1 else 0) + Arrivals(events[1..])
  }

  /** Every layout that compiles has keymap text. */
  predicate LayoutsHaveText(events: seq<Event>) {
    forall i :: 0 <= i < |events| && events[i].SetLayout? ==> events[i].hasText
  }

  /** Firings the first `n` jobs can still take. */
  function FirstMeasure(s: State, n: nat): int
    requires n <= |s.jobs|
  {
    Measure(s) - 2 * CharsLeft(s.jobs[n..])
  }

  lemma {:induction false} CharsLeftSnoc(jobs: seq<Job>, job: Job)
    ensures CharsLeft(jobs + [job]) == CharsLeft(jobs) + |job.chars| - job.pos
    decreases |jobs|
  {
    if jobs == [] {
      assert jobs + [job] == [job];
    } else {
      assert (jobs + [job])[1..] == jobs[1..] + [job];
      CharsLeftSnoc(jobs[1..], job);
    }
  }

  lemma {:induction false} CharsLeftSplit(jobs: seq<Job>, n: nat)
    requires n <= |jobs| && forall i :: 0 <= i < |jobs| ==> jobs[i].pos < |jobs[i].chars|
    ensures CharsLeft(jobs) >= CharsLeft(jobs[n..]) + n
    decreases n
  {
    if n > 0 {
      CharsLeftSplit(jobs[1..], n - 1);
      assert jobs[1..][n - 1..] == jobs[n..];
    }
  }

  /** A firing drops the head job or changes it; the jobs behind it stay. */
  lemma FiringKeepsTail(s: State, ok: bool)
    requires s.jobs != []
    ensures var jobs' := RunJob(s, ok).jobs;
            jobs' == s.jobs[1..] || (|jobs'| == |s.jobs| && jobs'[1..] == s.jobs[1..])
  {
  }

  lemma FiringKeepsLively(s: State, ok: bool)
    requires Lively(s.(timer := true)) && s.jobs != []
    ensures Lively(RunJob(s, ok)) && Measure(RunJob(s, ok)) < Measure(s)
  {
    FiringProgress(s, ok);
  }

  /** One event: `n'` of the first `n` jobs are left, with less to take after a firing. */
  ghost predicate Progresses(s: State, n: nat, e: Event, s': State, n': nat) {
    && Lively(s') && n' <= |s'.jobs| && n' <= n <= |s.jobs|
    && |s'.jobs| - n' <= |s.jobs| - n + (if Accepted(e) then 1 else 0)
    && (n > 0 ==> FirstMeasure(s', n') <= FirstMeasure(s, n) - (if e.Timer? then 1 else 0))
  }

  lemma TimerProgress(s: State, n: nat, ok: bool) returns (n': nat)
    requires Lively(s) && n <= |s.jobs|
    ensures Progresses(s, n, Timer(ok), Step(s, Timer(ok)), n')
  {
    n' := n;
    if s.jobs != [] {
      var s' := RunJob(s, ok);
      assert s.(timer := true) == s;
      FiringKeepsLively(s, ok);
      FiringKeepsTail(s, ok);
      if n > 0 {
        n' := if |s'.jobs| < |s.jobs| then n - 1 else n;
        assert s'.jobs[n'..] == s.jobs[n..];
      }
    }
  }

  lemma ArrivalProgress(s: State, n: nat, text: seq<Char>)
    requires n <= |s.jobs|
    ensures FirstMeasure(Enqueue(s, text), n) == FirstMeasure(s, n)
  {
    CharsLeftSnoc(s.jobs, Job(text, 0));
    CharsLeftSnoc(s.jobs[n..], Job(text, 0));
    assert Enqueue(s, text).jobs[n..] == s.jobs[n..] + [Job(text, 0)];
  }

  lemma TypeProgress(s: State, n: nat, e: Event)
    requires Lively(s) && n <= |s.jobs| && Accepted(e)
    ensures Progresses(s, n, e, Step(s, e), n)
  {
    if s.jobs == [] {
      FiringKeepsLively(Enqueue(s, e.text), e.ok);
      FiringKeepsTail(Enqueue(s, e.text), e.ok);
    } else {
      ArrivalProgress(s, n, e.text);
    }
  }

  lemma EventProgress(s: State, n: nat, e: Event) returns (n': nat)
    requires Lively(s) && n <= |s.jobs| && (e.SetLayout? ==> e.hasText)
    ensures Progresses(s, n, e, Step(s, e), n')
  {
    n' := n;
    if Accepted(e) {
      TypeProgress(s, n, e);
    } else if e.Timer? {
      n' := TimerProgress(s, n, e.ok);
    }
  }

  /** The first `n` queued jobs are finished after at most twice as many firings as they have
      characters, whether or not uploads succeed, and whatever texts are queued behind them and
      layouts chosen meanwhile: the queue then holds no more than what was behind them.  With
      all jobs and nothing new, it is empty. */
  lemma {:induction false} QueueDrains(s: State, n: nat, events: seq<Event>)
    requires Lively(s) && n <= |s.jobs| && LayoutsHaveText(events) && Firings(events) >= FirstMeasure(s, n)
    ensures |RunFrom(s, events).jobs| <= |s.jobs| - n + Arrivals(events)
    decreases |events|
  {
    CharsLeftSplit(s.jobs, n);
    if events != [] {
      var n' := EventProgress(s, n, events[0]);
      var s' := Step(s, events[0]);
      if n == 0 {
        assert s'.jobs[0..] == s'.jobs;
      }
      QueueDrains(s', n', events[1..]);
    }
  }

  /** Without keymap text the scheduler spins at a layout character: two firings later the
      queue and the delivered text are what they were. */
  lemma StuckSpins(s: State)
    requires Inv(s) && !s.runPending && Stuck(s)
    ensures var s' := Step(Step(s, Timer(true)), Timer(true));
            s'.jobs == s.jobs && Delivered(s').text == Delivered(s).text && !s'.runPending && Stuck(s')
  {
    assert s.(timer := s.jobs != []) == s;
    CustomRunKeeps(s, true);
    GeneratedBatch(s.layout, s.jobs[0].chars, s.jobs[0].pos);
    var s1 := RunJob(s, true);
    UploadReplays(s.(runInLayout := false, batch := s1.batch, runEnd := s1.runEnd), GeneratedKeymap(s1.batch), CustomUploaded);
    assert s1.runEnd == s1.jobs[0].pos;
    assert PressChars(s1.(runPending := false), s1.jobs[0].chars, s1.jobs[0].pos, s1.runEnd) == [];
    assert s1.jobs[0 := s1.jobs[0].(pos := s1.runEnd)] == s1.jobs;
    assert RunJob(s1, true).trace == s1.trace;
  }

  /** `n` firings whose uploads succeed. */
  function Firing(n: nat): seq<Event> { if n == 0 then [] else [Timer(true)] + Firing(n - 1) }

  /** And so on for ever: after any number of such pairs nothing has been typed. */
  lemma {:induction false} StuckForever(s: State, n: nat)
    requires Inv(s) && !s.runPending && Stuck(s)
    ensures var s' := RunFrom(s, Firing(2 * n));
            s'.jobs == s.jobs && Delivered(s').text == Delivered(s).text && !s'.runPending && Stuck(s')
    decreases n
  {
    if n > 0 {
      var s1 := Step(s, Timer(true));
      var s2 := Step(s1, Timer(true));
      StuckSpins(s);
      StepKeeps(s, Timer(true));
      StepKeeps(s1, Timer(true));
      StuckForever(s2, n - 1);
      TwoFirings(s, n);
    }
  }

  lemma TwoFirings(s: State, n: nat)
    requires n > 0
    ensures RunFrom(s, Firing(2 * n)) == RunFrom(Step(Step(s, Timer(true)), Timer(true)), Firing(2 * (n - 1)))
  {
    assert Firing(2 * n)[1..] == Firing(2 * n - 1);
    assert Firing(2 * n - 1)[1..] == Firing(2 * n - 2);
  }

  const STUCK_RUN: seq<Event> := [SetLayout(Some(OneKeyLayout(9, 97)), false), TypeText([97], true, true)]

  lemma {:induction false} StuckRunIs()
    ensures Run(STUCK_RUN) == Step(Step(INIT, STUCK_RUN[0]), STUCK_RUN[1])
  {
    RunTwoMore([], STUCK_RUN[0], STUCK_RUN[1]);
    assert STUCK_RUN == [] + [STUCK_RUN[0]] + [STUCK_RUN[1]];
  }

  lemma {:induction false} StuckInv()
    ensures Inv(Step(Step(INIT, STUCK_RUN[0]), STUCK_RUN[1]))
  {
    StuckLoads();
    assert Inv(INIT) by { assert Delivered(INIT) == FRESH_VIEW; }
    StepKeeps(INIT, STUCK_RUN[0]);
    StepKeeps(TEXTLESS_LAYOUT, STUCK_RUN[1]);
  }

  /** Such a state is reached by choosing a layout without keymap text and typing one of its
      characters. */
  lemma {:induction false} StuckReached()
    ensures var s := Run(STUCK_RUN);
            Inv(s) && EmptyRun(s) && !RunJob(s, true).runPending && Stuck(RunJob(s, true))
  {
    StuckRunIs();
    StuckInv();
    StuckLoads();
    StuckTypes();
    StuckPresses();
  }

  const TEXTLESS_LAYOUT := INIT.(layout := Loaded(map[97 := LayoutKey(1, 0)], OneKeyLayout(9, 97), false))

  const EMPTY_UPLOAD := TEXTLESS_LAYOUT.(
    jobs := [Job([97], 0)], timer := true, runPending := true, uploaded := CustomUploaded,
    trace := [SetKeymap(GeneratedKeymap([])), Modifiers(0)])

  lemma StuckLoads()
    ensures Step(INIT, STUCK_RUN[0]) == TEXTLESS_LAYOUT
  {
    OneKeyTable(9, 97);
  }

  lemma StuckTypes()
    ensures Step(TEXTLESS_LAYOUT, STUCK_RUN[1]) == EMPTY_UPLOAD
  {
    assert FindLayoutKey(TEXTLESS_LAYOUT.layout, 97).Some?;
    assert CollectBatch(TEXTLESS_LAYOUT.layout, [97], 0, []) == ([], 0);
    assert Step(TEXTLESS_LAYOUT, STUCK_RUN[1]).trace == EMPTY_UPLOAD.trace;
  }

  lemma StuckPresses()
    ensures EmptyRun(EMPTY_UPLOAD) && !RunJob(EMPTY_UPLOAD, true).runPending && Stuck(RunJob(EMPTY_UPLOAD, true))
  {
    assert PressRun(EMPTY_UPLOAD.(runPending := false)).jobs == [Job([97], 0)];
  }

  // ---------------------------------------------------------------- a change of layout mid-run

  function OneKeyLayout(code: nat, cp: Char): Keymap {
    Layout(code, code, map[code := [Level([Unicode(cp)], [0])]])
  }

  const MID_RUN_CHANGE: seq<Event> := [
    SetLayout(Some(OneKeyLayout(9, 97)), true),
    TypeText([97], true, true),
    SetLayout(Some(OneKeyLayout(10, 97)), true),
    Timer(true)]

  lemma OneKeyTable(code: nat, cp: Char)
    requires 8 <= code <= 255
    ensures LayoutTable(OneKeyLayout(code, cp)) == map[cp := LayoutKey(code - 8, 0)]
  {
    var km := OneKeyLayout(code, cp);
    var levels := LevelsOf(km, code);
    var table := AddLevel(map[], code, levels[0]);
    assert AddLevels(table, code, levels, 1) == table;
    assert AddLevels(map[], code, levels, 0) == table;
    assert AddCodes(table, km, code + 1) == table;
  }

  lemma RunSnoc(events: seq<Event>, e: Event)
    ensures Run(events + [e]) == Step(Run(events), e)
    ensures Requested(events + [e]) == Requested(events) + NewText(e)
    ensures AllUndisturbed(events + [e]) <==> AllUndisturbed(events) && Undisturbed(Run(events), e)
  {
    assert (events + [e])[..|events + [e]| - 1] == events;
  }

  lemma RunTwoMore(events: seq<Event>, a: Event, b: Event)
    ensures Run(events + [a] + [b]) == Step(Step(Run(events), a), b)
    ensures Requested(events + [a] + [b]) == Requested(events) + NewText(a) + NewText(b)
    ensures AllUndisturbed(events + [a] + [b]) ==> Undisturbed(Run(events), a)
  {
    RunSnoc(events, a);
    RunSnoc(events + [a], b);
  }

  const UPLOADED_RUN := State([Job([97], 0)], true, [], 1, true, true, LayoutUploaded,
                             Loaded(map[97 := LayoutKey(1, 0)], OneKeyLayout(9, 97), true),
                             [SetKeymap(OneKeyLayout(9, 97)), Modifiers(0)])

  const LOADED_LAYOUT := INIT.(layout := UPLOADED_RUN.layout)

  lemma MidRunLoads()
    ensures Step(INIT, MID_RUN_CHANGE[0]) == LOADED_LAYOUT
  {
    OneKeyTable(9, 97);
  }

  lemma MidRunTypes()
    ensures Step(LOADED_LAYOUT, MID_RUN_CHANGE[1]) == UPLOADED_RUN
  {
    LayoutRunSpec(LOADED_LAYOUT.layout, [97], 0);
    assert Step(LOADED_LAYOUT, MID_RUN_CHANGE[1]).trace == UPLOADED_RUN.trace;
  }

  lemma {:induction false} MidRunReachesUpload()
    ensures Run(MID_RUN_CHANGE[..2]) == UPLOADED_RUN && Requested(MID_RUN_CHANGE[..2]) == [97]
  {
    var e0, e1 := MID_RUN_CHANGE[0], MID_RUN_CHANGE[1];
    MidRunLoads();
    MidRunTypes();
    RunTwoMore([], e0, e1);
    assert [] + [e0] + [e1] == MID_RUN_CHANGE[..2];
  }

  lemma MidRunPresses(s: State)
    requires s == ChangeLayout(UPLOADED_RUN, OneKeyLayout(10, 97), true)
    ensures Step(s, Timer(true)).trace == UPLOADED_RUN.trace + Press(2, 0)
    ensures Step(s, Timer(true)).jobs == []
  {
    OneKeyTable(10, 97);
    var s0 := s.(runPending := false);
    assert PressChar(s0, 97) == Press(2, 0);
    assert PressChars(s0, [97], 1, 1) == [];
    assert PressChars(s0, [97], 0, 1) == Press(2, 0) + [];
  }

  lemma MidRunReplays()
    ensures Replay(FRESH_VIEW, UPLOADED_RUN.trace + Press(2, 0)).text == []
  {
    var v := FRESH_VIEW.(keymap := Some(OneKeyLayout(9, 97)));
    UploadReplays(INIT, OneKeyLayout(9, 97), LayoutUploaded);
    assert Upload(INIT, OneKeyLayout(9, 97), LayoutUploaded).trace == UPLOADED_RUN.trace;
    ReplayConcat(FRESH_VIEW, UPLOADED_RUN.trace, Press(2, 0));
    PressTypes(v, 2, 0);
  }

  lemma {:induction false} MidRunSplits()
    ensures MID_RUN_CHANGE == MID_RUN_CHANGE[..2] + [MID_RUN_CHANGE[2]] + [MID_RUN_CHANGE[3]]
  {
  }

  lemma MidRunDisturbs()
    ensures !Undisturbed(UPLOADED_RUN, MID_RUN_CHANGE[2])
  {
  }

  lemma {:induction false} MidRunRequests()
    ensures Requested(MID_RUN_CHANGE) == [97] && !AllUndisturbed(MID_RUN_CHANGE)
    ensures Run(MID_RUN_CHANGE) == Step(ChangeLayout(UPLOADED_RUN, OneKeyLayout(10, 97), true), Timer(true))
  {
    MidRunReachesUpload();
    MidRunSplits();
    MidRunDisturbs();
    RunTwoMore(MID_RUN_CHANGE[..2], MID_RUN_CHANGE[2], MID_RUN_CHANGE[3]);
  }

  /** Changing the layout between the upload and the presses of a layout run loses text:
      here the requested "a" never arrives although the queue is empty. */
  lemma MidRunLayoutChangeLosesText()
    ensures Run(MID_RUN_CHANGE).jobs == [] && Requested(MID_RUN_CHANGE) == [97]
    ensures Delivered(Run(MID_RUN_CHANGE)).text == []
    ensures !AllUndisturbed(MID_RUN_CHANGE)
  {
    MidRunRequests();
    MidRunPresses(ChangeLayout(UPLOADED_RUN, OneKeyLayout(10, 97), true));
    MidRunReplays();
  }
}
