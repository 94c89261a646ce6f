/** What the typing scheduler guarantees over every run. */
module TypingTheorems {
  import opened Basics
  import opened Keyboard
  import opened TypingSpec

  // ---------------------------------------------------------------- the layout table

  /** Every table entry, pressed under the keymap it came from, enters its own character. */
  ghost predicate TableSound(table: map<Char, LayoutKey>, km: Keymap) {
    forall cp :: cp in table ==> KeyText(km, (table[cp].code + 8) % UINT32, table[cp].mask) == [cp]
  }

  /** A level that a character can be typed with. */
  predicate Usable(level: Level, cp: Char) {
    |level.syms| == 1 && CharOf(level.syms[0]) == cp && level.masks != []
  }

  /** The compositor adds back the 8 that the request leaves out. */
  lemma KeycodeRestored(code: nat)
    requires code <= 255
    ensures ((code + UINT32 - 8) % UINT32 + 8) % UINT32 == code
  {
  }

  lemma AddLevelSound(table: map<Char, LayoutKey>, km: Keymap, code: nat, l: nat)
    requires km.Layout? && MasksSelectLevels(km) && code <= 255
    requires l < |LevelsOf(km, code)| && TableSound(table, km)
    ensures TableSound(AddLevel(table, code, LevelsOf(km, code)[l]), km)
  {
    var level := LevelsOf(km, code)[l];
    var table' := AddLevel(table, code, level);
    if table' != table {
      var cp := CharOf(level.syms[0]);
      LevelTextAt(LevelsOf(km, code), l, level.masks[0]);
      KeycodeRestored(code);
    }
  }

  lemma {:induction false} AddLevelsSpec(table: map<Char, LayoutKey>, km: Keymap, code: nat, l: nat)
    requires km.Layout? && MasksSelectLevels(km) && code <= 255
    requires TableSound(table, km)
    ensures var table' := AddLevels(table, code, LevelsOf(km, code), l);
            && TableSound(table', km)
            && table.Keys <= table'.Keys
            && (forall k, cp :: l <= k < |LevelsOf(km, code)| && Usable(LevelsOf(km, code)[k], cp) ==> cp in table')
            && (forall cp :: cp in table' ==>
                  (cp in table || exists k :: l <= k < |LevelsOf(km, code)| && Usable(LevelsOf(km, code)[k], cp)))
    decreases |LevelsOf(km, code)| - l
  {
    var levels := LevelsOf(km, code);
    if l < |levels| {
      AddLevelSound(table, km, code, l);
      var next := AddLevel(table, code, levels[l]);
      assert forall cp :: cp in next ==> cp in table || Usable(levels[l], cp);
      AddLevelsSpec(next, km, code, l + 1);
    }
  }

  /** Some key code in [code, 255] and level types `cp`. */
  ghost predicate Typable(km: Keymap, code: nat, cp: Char)
    requires km.Layout?
  {
    exists c, l :: code <= c <= km.maxCode && c <= 255 && 0 <= l < |LevelsOf(km, c)| && Usable(LevelsOf(km, c)[l], cp)
  }

  lemma {:induction false} AddCodesSpec(table: map<Char, LayoutKey>, km: Keymap, code: nat)
    requires km.Layout? && MasksSelectLevels(km) && TableSound(table, km)
    ensures TableSound(AddCodes(table, km, code), km)
    ensures forall cp :: cp in AddCodes(table, km, code) <==> cp in table || Typable(km, code, cp)
    decreases LastCode(km) + 1 - code
  {
    if code <= LastCode(km) {
      AddLevelsSpec(table, km, code, 0);
      var next := AddLevels(table, code, LevelsOf(km, code), 0);
      AddCodesSpec(next, km, code + 1);
      forall cp ensures Typable(km, code, cp) <==>
        Typable(km, code + 1, cp) || exists l :: 0 <= l < |LevelsOf(km, code)| && Usable(LevelsOf(km, code)[l], cp)
      {
        if l :| 0 <= l < |LevelsOf(km, code)| && Usable(LevelsOf(km, code)[l], cp) {
          assert code <= code <= LastCode(km);
        }
      }
    }
  }

  /** The layout table holds exactly the characters the layout can type, each with a key
      and mask that types it. */
  lemma LayoutTableExact(km: Keymap)
    requires km.Layout? && MasksSelectLevels(km)
    ensures TableSound(LayoutTable(km), km)
    ensures forall cp :: cp in LayoutTable(km) <==> Typable(km, km.minCode, cp)
  {
    AddCodesSpec(map[], km, km.minCode);
  }

  // ---------------------------------------------------------------- batches

  lemma BatchIndexSpec(batch: seq<Char>, cp: Char)
    ensures BatchIndex(batch, cp) >= 0 <==> cp in batch
    ensures cp in batch ==> BatchIndex(batch, cp) < |batch| && batch[BatchIndex(batch, cp)] == cp
  {
    IndexFromSpec(batch, cp, 0);
    assert batch[0..] == batch;
  }

  ghost predicate Distinct(batch: seq<Char>) {
    forall i, j :: 0 <= i < j < |batch| ==> batch[i] != batch[j]
  }

  ghost predicate Covered(chars: seq<Char>, from: nat, to: nat, batch: seq<Char>) {
    from <= to <= |chars| && forall i :: from <= i < to ==> chars[i] in batch
  }

  /** Why a batch ends where it does. */
  predicate Stops(layout: UserLayout, chars: seq<Char>, end: nat, batch: seq<Char>) {
    || end == |chars|
    || (end < |chars| && FindLayoutKey(layout, chars[end]).Some?)
    || (end < |chars| && |batch| == 240 && chars[end] !in batch)
  }

  lemma {:induction false} CollectBatchSpec(layout: UserLayout, chars: seq<Char>, from: nat, end: nat, batch: seq<Char>)
    requires Distinct(batch) && |batch| <= BATCH_KEYS && Covered(chars, from, end, batch)
    requires forall i :: from <= i < end ==> FindLayoutKey(layout, chars[i]).None?
    requires forall c :: c in batch ==> c in chars[from..end]
    ensures var (batch', end') := CollectBatch(layout, chars, end, batch);
            && end <= end' && Distinct(batch') && |batch'| <= BATCH_KEYS && Covered(chars, from, end', batch')
            && (forall i :: from <= i < end' ==> FindLayoutKey(layout, chars[i]).None?)
            && (forall c :: c in batch' ==> c in chars[from..end'])
            && Stops(layout, chars, end', batch')
    decreases |chars| - end
  {
    if end < |chars| && FindLayoutKey(layout, chars[end]).None? {
      BatchIndexSpec(batch, chars[end]);
      assert chars[from..end + 1] == chars[from..end] + [chars[end]];
      if chars[end] in batch {
        CollectBatchSpec(layout, chars, from, end + 1, batch);
      } else if |batch| < BATCH_KEYS {
        CollectBatchSpec(layout, chars, from, end + 1, batch + [chars[end]]);
      }
    }
  }

  /** The generated batch is right and maximal, and it makes progress whenever it starts at
      a character the layout lacks. */
  lemma GeneratedBatch(layout: UserLayout, chars: seq<Char>, pos: nat)
    requires pos < |chars|
    ensures var (batch, end) := CollectBatch(layout, chars, pos, []);
            && Distinct(batch) && |batch| <= BATCH_KEYS && Covered(chars, pos, end, batch)
            && (forall c :: c in batch ==> c in chars[pos..end])
            && (forall i :: pos <= i < end ==> FindLayoutKey(layout, chars[i]).None?)
            && Stops(layout, chars, end, batch)
            && (end > pos <==> FindLayoutKey(layout, chars[pos]).None?)
  {
    CollectBatchSpec(layout, chars, pos, pos, []);
    var (batch, end) := CollectBatch(layout, chars, pos, []);
    if batch != [] {
      assert batch[0] in chars[pos..end];
    }
  }

  lemma {:induction false} LayoutRunSpec(layout: UserLayout, chars: seq<Char>, end: nat)
    requires end <= |chars|
    ensures var e := LayoutRunEnd(layout, chars, end);
            && end <= e <= |chars|
            && (forall i :: end <= i < e ==> FindLayoutKey(layout, chars[i]).Some?)
            && (e < |chars| ==> FindLayoutKey(layout, chars[e]).None?)
    decreases |chars| - end
  {
    if end < |chars| && FindLayoutKey(layout, chars[end]).Some? {
      LayoutRunSpec(layout, chars, end + 1);
    }
  }

  // ---------------------------------------------------------------- pressing keys

  /** Pressing `index + 1` names keycode `index + 9`, which the generated keymap gives the
      character at `index`. */
  lemma GeneratedKeyTypes(batch: seq<Char>, cp: Char)
    requires Distinct(batch) && |batch| <= BATCH_KEYS && cp in batch
    ensures 9 <= BatchIndex(batch, cp) + 1 + 8 <= 248
    ensures KeyText(GeneratedKeymap(batch), (BatchIndex(batch, cp) + 1 + 8) % UINT32, 0) == [Newline(cp)]
  {
    BatchIndexSpec(batch, cp);
    var i := BatchIndex(batch, cp);
    var km := GeneratedKeymap(batch);
    GeneratedTextAt(km.codes, km.syms, i);
    assert km.codes[i] == i + 9 && km.syms[i] == KeysymFor(cp);
  }

  lemma PressTypes(v: View, code: nat, mask: Mask)
    requires v.keymap.Some? && v.mods == 0
    ensures Replay(v, Press(code, mask)) == v.(text := v.text + KeyText(v.keymap.value, (code + 8) % UINT32, mask))
  {
    var head := [Modifiers(mask), Key(code, true), Key(code, false)];
    var v1 := Apply(v, head[0]);
    var v2 := Apply(v1, head[1]);
    calc {
      Replay(v, head);
      Replay(v1, head[1..]);
      { assert head[1..][0] == head[1] && head[1..][1..] == head[2..]; }
      Replay(v2, head[2..]);
      { assert head[2..][0] == head[2] && head[2..][1..] == []; }
      Replay(Apply(v2, head[2]), []);
      v2;
    }
    if mask != 0 {
      ReplayConcat(v, head, [Modifiers(0)]);
      assert Replay(v2, [Modifiers(0)]) == Replay(Apply(v2, Modifiers(0)), []);
    } else {
      assert Press(code, mask) == head;
    }
  }

  /** In state `s` and under keymap `km`, pressing `cp` enters `cp`. */
  ghost predicate Types(s: State, km: Keymap, cp: Char) {
    if s.runInLayout then
      s.layout.Loaded? && km == s.layout.keymap && TableSound(s.layout.table, km) && FindLayoutKey(s.layout, cp).Some?
    else
      km == GeneratedKeymap(s.batch) && Distinct(s.batch) && |s.batch| <= BATCH_KEYS && cp in s.batch
  }

  lemma PressCharTypes(s: State, v: View, cp: Char)
    requires v.keymap.Some? && v.mods == 0 && Types(s, v.keymap.value, cp)
    ensures Replay(v, PressChar(s, cp)) == v.(text := v.text + [Newline(cp)])
  {
    if s.runInLayout {
      var key := s.layout.table[Newline(cp)];
      PressTypes(v, key.code, key.mask);
    } else {
      GeneratedKeyTypes(s.batch, cp);
      PressTypes(v, BatchIndex(s.batch, cp) + 1, 0);
    }
  }

  lemma ReadCons(chars: seq<Char>, i: nat, end: nat)
    requires i < end <= |chars|
    ensures Read(chars[i..end]) == [Newline(chars[i])] + Read(chars[i + 1..end])
  {
    assert chars[i..end] == [chars[i]] + chars[i + 1..end];
  }

  lemma {:induction false} PressCharsTypes(s: State, v: View, chars: seq<Char>, i: nat, end: nat)
    requires v.keymap.Some? && v.mods == 0 && i <= end <= |chars|
    requires forall k :: i <= k < end ==> Types(s, v.keymap.value, chars[k])
    ensures Replay(v, PressChars(s, chars, i, end)) == v.(text := v.text + Read(chars[i..end]))
    decreases end - i
  {
    if i < end {
      PressCharTypes(s, v, chars[i]);
      var v1 := v.(text := v.text + [Newline(chars[i])]);
      PressCharsTypes(s, v1, chars, i + 1, end);
      ReplayConcat(v, PressChar(s, chars[i]), PressChars(s, chars, i + 1, end));
      ReadCons(chars, i, end);
      ConcatAssoc(v.text, [Newline(chars[i])], Read(chars[i + 1..end]));
    } else {
      assert v.text + Read(chars[i..end]) == v.text;
    }
  }

  // ---------------------------------------------------------------- the invariant

  ghost predicate JobsWaiting(s: State) {
    forall i :: 0 <= i < |s.jobs| ==> s.jobs[i].pos < |s.jobs[i].chars|
  }

  /** A pending run can be typed under the keymap the compositor has. */
  ghost predicate PendingRunReady(s: State) {
    s.runPending ==>
      && s.jobs != [] && s.jobs[0].pos <= s.runEnd <= |s.jobs[0].chars|
      && (s.runInLayout ==> s.uploaded == LayoutUploaded)
      && Delivered(s).keymap.Some?
      && (forall i :: s.jobs[0].pos <= i < s.runEnd ==> Types(s, Delivered(s).keymap.value, s.jobs[0].chars[i]))
  }

  ghost predicate LayoutSound(s: State) {
    && (s.layout.Loaded? ==> TableSound(s.layout.table, s.layout.keymap))
    && (s.uploaded == LayoutUploaded ==> s.layout.Loaded? && Delivered(s).keymap == Some(s.layout.keymap))
  }

  ghost predicate Inv(s: State) {
    && Delivered(s).legal
    && Delivered(s).mods == 0
    && JobsWaiting(s)
    && PendingRunReady(s)
    && LayoutSound(s)
    && (s.timer <==> s.jobs != [])
  }

  lemma UploadReplays(s: State, km: Keymap, kind: Uploaded)
    requires Delivered(s).mods == 0
    ensures Delivered(Upload(s, km, kind)) == Delivered(s).(keymap := Some(km))
  {
    var v := Delivered(s);
    ReplayConcat(FRESH_VIEW, s.trace, [SetKeymap(km), Modifiers(0)]);
    assert [SetKeymap(km), Modifiers(0)][1..] == [Modifiers(0)];
    assert Replay(v, [SetKeymap(km), Modifiers(0)]) == Replay(Apply(v, SetKeymap(km)), [Modifiers(0)]);
    assert Replay(v.(keymap := Some(km)), [Modifiers(0)]) == Replay(Apply(v.(keymap := Some(km)), Modifiers(0)), []);
  }

  /** The current run of the head job can be typed under the compositor's keymap. */
  ghost predicate RunReady(s: State) {
    && s.jobs != [] && s.jobs[0].pos <= s.runEnd <= |s.jobs[0].chars|
    && Delivered(s).keymap.Some? && Delivered(s).mods == 0
    && (forall i :: s.jobs[0].pos <= i < s.runEnd ==> Types(s, Delivered(s).keymap.value, s.jobs[0].chars[i]))
  }

  lemma ReadConcat(a: seq<Char>, b: seq<Char>)
    ensures Read(a + b) == Read(a) + Read(b)
  {
  }

  lemma JobAdvances(job: Job, end: nat)
    requires job.pos <= end <= |job.chars|
    ensures JobText(job) == Read(job.chars[job.pos..end]) + JobText(job.(pos := end))
  {
    assert job.chars[job.pos..] == job.chars[job.pos..end] + job.chars[end..];
    ReadConcat(job.chars[job.pos..end], job.chars[end..]);
  }

  lemma HeadAdvances(jobs: seq<Job>, end: nat)
    requires jobs != [] && jobs[0].pos <= end <= |jobs[0].chars|
    ensures Remaining(jobs) == Read(jobs[0].chars[jobs[0].pos..end]) + Remaining(jobs[0 := jobs[0].(pos := end)])
  {
    JobAdvances(jobs[0], end);
    var jobs' := jobs[0 := jobs[0].(pos := end)];
    assert jobs'[1..] == jobs[1..];
    ConcatAssoc(Read(jobs[0].chars[jobs[0].pos..end]), JobText(jobs'[0]), Remaining(jobs[1..]));
  }

  lemma PressRunMoves(s: State)
    requires RunReady(s)
    ensures var s' := PressRun(s);
            && Delivered(s') == Delivered(s).(text := Delivered(s').text)
            && Delivered(s').text + Remaining(s'.jobs) == Delivered(s).text + Remaining(s.jobs)
  {
    var job := s.jobs[0];
    var run := PressChars(s, job.chars, job.pos, s.runEnd);
    PressCharsTypes(s, Delivered(s), job.chars, job.pos, s.runEnd);
    ReplayConcat(FRESH_VIEW, s.trace, run);
    HeadAdvances(s.jobs, s.runEnd);
    ConcatAssoc(Delivered(s).text, Read(job.chars[job.pos..s.runEnd]), Remaining(PressRun(s).jobs));
  }

  lemma FinishMoves(s: State)
    requires s.jobs != [] && s.jobs[0].pos <= |s.jobs[0].chars|
    requires forall i :: 1 <= i < |s.jobs| ==> s.jobs[i].pos < |s.jobs[i].chars|
    ensures Remaining(Finish(s).jobs) == Remaining(s.jobs)
    ensures JobsWaiting(Finish(s)) && (Finish(s).timer <==> Finish(s).jobs != [])
  {
    if s.jobs[0].pos >= |s.jobs[0].chars| {
      assert Read(s.jobs[0].chars[s.jobs[0].pos..]) == [];
    }
  }

  /** The text handed over so far followed by the text still queued. */
  ghost function Total(s: State): seq<Char> { Delivered(s).text + Remaining(s.jobs) }

  lemma PressAndFinishKeeps(s: State)
    requires RunReady(s) && !s.runPending && Delivered(s).legal && JobsWaiting(s) && LayoutSound(s)
    ensures Inv(Finish(PressRun(s))) && Total(Finish(PressRun(s))) == Total(s)
  {
    PressRunMoves(s);
    FinishMoves(PressRun(s));
  }

  lemma UploadKeeps(s: State, km: Keymap, kind: Uploaded)
    requires s.jobs != [] && s.jobs[0].pos <= s.runEnd <= |s.jobs[0].chars|
    requires Delivered(s).legal && Delivered(s).mods == 0 && JobsWaiting(s)
    requires s.layout.Loaded? ==> TableSound(s.layout.table, s.layout.keymap)
    requires kind == LayoutUploaded ==> s.layout.Loaded? && km == s.layout.keymap
    requires s.runInLayout ==> kind == LayoutUploaded
    requires forall i :: s.jobs[0].pos <= i < s.runEnd ==> Types(s, km, s.jobs[0].chars[i])
    ensures Inv(Upload(s, km, kind)) && Total(Upload(s, km, kind)) == Total(s)
  {
    UploadReplays(s, km, kind);
    var s' := Upload(s, km, kind);
    forall i | s.jobs[0].pos <= i < s.runEnd ensures Types(s', km, s.jobs[0].chars[i]) {
      assert Types(s, km, s.jobs[0].chars[i]);
    }
  }

  ghost predicate Ready(s: State) { Inv(s.(timer := s.jobs != [])) && s.jobs != [] }

  lemma LayoutRunKeeps(s: State, ok: bool)
    requires Ready(s) && StartsLayoutRun(s)
    requires s.uploaded == LayoutUploaded || ok
    ensures Inv(RunJob(s, ok)) && Total(RunJob(s, ok)) == Total(s)
  {
    var job := s.jobs[0];
    LayoutRunSpec(s.layout, job.chars, job.pos);
    var run := s.(runEnd := LayoutRunEnd(s.layout, job.chars, job.pos), runInLayout := true);
    assert Delivered(run) == Delivered(s.(timer := true));
    if s.uploaded != LayoutUploaded {
      UploadKeeps(run, s.layout.keymap, LayoutUploaded);
    } else {
      PressAndFinishKeeps(run);
    }
  }

  lemma CustomRunUploads(s: State)
    requires Ready(s) && StartsCustomRun(s)
    ensures Inv(RunJob(s, true)) && Total(RunJob(s, true)) == Total(s)
  {
    var job := s.jobs[0];
    GeneratedBatch(s.layout, job.chars, job.pos);
    var (batch, end) := CollectBatch(s.layout, job.chars, job.pos, []);
    var run := s.(runInLayout := false, batch := batch, runEnd := end);
    assert Delivered(run) == Delivered(s.(timer := true));
    UploadKeeps(run, GeneratedKeymap(batch), CustomUploaded);
  }

  lemma CustomRunGivesUp(s: State)
    requires Ready(s) && StartsCustomRun(s)
    ensures Inv(RunJob(s, false))
    ensures Delivered(RunJob(s, false)) == Delivered(s) && RunJob(s, false).jobs == s.jobs[1..]
  {
    var job := s.jobs[0];
    var (batch, end) := CollectBatch(s.layout, job.chars, job.pos, []);
    var run := s.(runInLayout := false, batch := batch, runEnd := end);
    FinishMoves(run.(jobs := s.jobs[0 := job.(pos := |job.chars|)]));
  }

  lemma CustomRunKeeps(s: State, ok: bool)
    requires Ready(s) && StartsCustomRun(s)
    ensures Inv(RunJob(s, ok))
    ensures ok ==> Total(RunJob(s, ok)) == Total(s)
    ensures !ok ==> Delivered(RunJob(s, ok)) == Delivered(s) && RunJob(s, ok).jobs == s.jobs[1..]
  {
    if ok {
      CustomRunUploads(s);
    } else {
      CustomRunGivesUp(s);
    }
  }

  /** One call of `run_job` keeps the invariant and moves text from the queue to the
      compositor, except that a job whose generated keymap cannot be uploaded is given up. */
  lemma RunJobKeeps(s: State, ok: bool)
    requires Ready(s)
    requires StartsLayoutRun(s) && s.uploaded != LayoutUploaded ==> ok
    ensures Inv(RunJob(s, ok))
    ensures !(StartsCustomRun(s) && !ok) ==> Total(RunJob(s, ok)) == Total(s)
    ensures StartsCustomRun(s) && !ok ==> Delivered(RunJob(s, ok)) == Delivered(s) && RunJob(s, ok).jobs == s.jobs[1..]
  {
    if s.runPending {
      var s0 := s.(runPending := false);
      assert Delivered(s0) == Delivered(s.(timer := true));
      assert RunReady(s0) by {
        forall i | s.jobs[0].pos <= i < s.runEnd ensures Types(s0, Delivered(s0).keymap.value, s0.jobs[0].chars[i]) {
          assert Types(s.(timer := true), Delivered(s).keymap.value, s.jobs[0].chars[i]);
        }
      }
      PressAndFinishKeeps(s0);
    } else if StartsLayoutRun(s) {
      LayoutRunKeeps(s, ok);
    } else {
      assert s.jobs[0].pos < |s.jobs[0].chars|;
      CustomRunKeeps(s, ok);
    }
  }

  // ---------------------------------------------------------------- whole runs

  lemma {:induction false} RemainingSnoc(jobs: seq<Job>, text: seq<Char>)
    ensures Remaining(jobs + [Job(text, 0)]) == Remaining(jobs) + Read(text)
    decreases |jobs|
  {
    if jobs == [] {
      assert text[0..] == text;
      assert jobs + [Job(text, 0)] == [Job(text, 0)];
      assert Remaining([Job(text, 0)]) == JobText(Job(text, 0)) + [];
    } else {
      assert (jobs + [Job(text, 0)])[1..] == jobs[1..] + [Job(text, 0)];
      RemainingSnoc(jobs[1..], text);
      assert JobText(jobs[0]) + (Remaining(jobs[1..]) + Read(text)) == JobText(jobs[0]) + Remaining(jobs[1..]) + Read(text);
    }
  }

  /** Readiness depends on the head job and the run only. */
  lemma ReadyKept(s: State, s': State)
    requires PendingRunReady(s) && LayoutSound(s)
    requires s' == s.(jobs := s'.jobs, timer := s'.timer)
    requires s.runPending ==> s'.jobs != [] && s'.jobs[0] == s.jobs[0]
    ensures PendingRunReady(s') && LayoutSound(s')
  {
    if s.runPending {
      forall i | s.jobs[0].pos <= i < s.runEnd ensures Types(s', Delivered(s').keymap.value, s'.jobs[0].chars[i]) {
        assert Types(s, Delivered(s).keymap.value, s.jobs[0].chars[i]);
      }
    }
  }

  lemma EnqueueKeeps(s: State, text: seq<Char>)
    requires Inv(s) && text != []
    ensures Ready(Enqueue(s, text))
    ensures s.jobs != [] ==> Inv(Enqueue(s, text))
    ensures s.jobs == [] ==> !s.runPending
  {
    ReadyKept(s, Enqueue(s, text));
    ReadyKept(s, Enqueue(s, text).(timer := true));
  }

  lemma EnqueueTotal(s: State, text: seq<Char>)
    ensures Total(Enqueue(s, text)) == Total(s) + Read(text)
  {
    RemainingSnoc(s.jobs, text);
    ConcatAssoc(Delivered(s).text, Remaining(s.jobs), Read(text));
  }

  lemma ChangeLayoutKeeps(s: State, km: Keymap, hasText: bool)
    requires Inv(s) && km.Layout? && MasksSelectLevels(km) && !(s.runPending && s.runInLayout)
    ensures Inv(ChangeLayout(s, km, hasText)) && Total(ChangeLayout(s, km, hasText)) == Total(s)
  {
    LayoutTableExact(km);
    var s' := ChangeLayout(s, km, hasText);
    assert Delivered(s') == Delivered(s);
    if s.runPending {
      forall i | s.jobs[0].pos <= i < s.runEnd ensures Types(s', Delivered(s').keymap.value, s'.jobs[0].chars[i]) {
        assert Types(s, Delivered(s).keymap.value, s.jobs[0].chars[i]);
      }
    }
  }

  lemma StepKeeps(s: State, e: Event)
    requires Inv(s) && Undisturbed(s, e)
    ensures Inv(Step(s, e))
    ensures |Total(Step(s, e))| + Lost(s, e) == |Total(s)| + |NewText(e)|
    ensures Lost(s, e) == 0 ==> Total(Step(s, e)) == Total(s) + Read(NewText(e))
  {
    match e
    case TypeText(text, _, ok) =>
      if Accepted(e) {
        EnqueueKeeps(s, text);
        EnqueueTotal(s, text);
        if RunsFrom(s, e).Some? {
          RunJobLoses(Enqueue(s, text), ok);
        }
      } else {
        assert Total(s) + Read([]) == Total(s);
      }
    case Timer(ok) =>
      assert Total(s) + Read([]) == Total(s);
      if s.timer {
        assert s.(timer := s.jobs != []) == s;
        RunJobLoses(s, ok);
      }
    case SetLayout(compiled, hasText) =>
      assert Total(s) + Read([]) == Total(s);
      if compiled.Some? {
        ChangeLayoutKeeps(s, compiled.value, hasText);
      }
  }

  lemma RunJobLoses(s: State, ok: bool)
    requires Ready(s)
    requires StartsLayoutRun(s) && s.uploaded != LayoutUploaded ==> ok
    ensures Inv(RunJob(s, ok))
    ensures !(StartsCustomRun(s) && !ok) ==> Total(RunJob(s, ok)) == Total(s)
    ensures StartsCustomRun(s) && !ok ==>
              |Total(RunJob(s, ok))| + (|s.jobs[0].chars| - s.jobs[0].pos) == |Total(s)|
  {
    RunJobKeeps(s, ok);
  }

  lemma {:induction false} RunKeeps(events: seq<Event>)
    requires AllUndisturbed(events)
    ensures Inv(Run(events))
    ensures |Total(Run(events))| + AllLost(events) == |Requested(events)|
    ensures AllLost(events) == 0 ==> Total(Run(events)) == Read(Requested(events))
    decreases |events|
  {
    if events == [] {
      assert Delivered(INIT) == FRESH_VIEW;
    } else {
      var before, e := events[..|events| - 1], events[|events| - 1];
      RunKeeps(before);
      StepKeeps(Run(before), e);
      ReadConcat(Requested(before), NewText(e));
      assert Requested(events) == Requested(before) + NewText(e);
    }
  }

  /** Typing preserves text.  In every undisturbed run the compositor has been sent only
      legal requests, and what it has been typed followed by what is still queued is the
      requested text in order, exactly when no generated keymap upload made the scheduler
      give up a job. */
  lemma {:induction false} TypingPreservesText(events: seq<Event>)
    requires AllUndisturbed(events)
    ensures Delivered(Run(events)).legal
    ensures AllLost(events) == 0 <==>
            Delivered(Run(events)).text + Remaining(Run(events).jobs) == Read(Requested(events))
    ensures AllLost(events) == 0 ==> Delivered(Run(events)).text <= Read(Requested(events))
    ensures AllLost(events) == 0 && Run(events).jobs == [] ==> Delivered(Run(events)).text == Read(Requested(events))
    ensures Run(events).timer <==> Run(events).jobs != []
    ensures forall i :: 0 <= i < |Run(events).jobs| ==> Run(events).jobs[i].pos < |Run(events).jobs[i].chars|
  {
    RunKeeps(events);
  }
}
