/** The scheduler as the program keeps it: static variables, a fixed array of batch keys and
    loops.  Every method is proved to be the corresponding step of the state machine. */
module Typist {
  import opened Basics
  import opened Keyboard
  import opened TypingSpec
  import TypingProgress

  class Scheduler {
    var jobs: seq<Job>
    var timer: bool
    const batchKeys: array<Char>
    var batchCount: nat
    var runEnd: nat
    var runPending: bool
    var runInLayout: bool
    var uploaded: Uploaded
    var layout: UserLayout
    var trace: seq<Request>  // requests sent to the compositor

    ghost predicate Valid()
      reads this, batchKeys
    {
      batchKeys.Length == BATCH_KEYS && batchCount <= BATCH_KEYS
    }

    ghost function Model(): State
      requires Valid()
      reads this, batchKeys
    {
      State(jobs, timer, batchKeys[..batchCount], runEnd, runPending, runInLayout, uploaded, layout, trace)
    }

    constructor ()
      ensures Valid() && Model() == INIT && fresh(batchKeys)
    {
      jobs, timer, batchCount, runEnd, runPending, runInLayout := [], false, 0, 0, false, false;
      uploaded, layout, trace := NothingUploaded, NoLayout, [];
      batchKeys := new Char[BATCH_KEYS](_ => 1);
    }

    /** `singularity_type_text_set_layout`; `compiled` is the keymap xkbcommon built, if any. */
    method SetLayoutNames(compiled: Option<Keymap>, hasText: bool)
      requires Valid()
      requires compiled.Some? ==> compiled.value.Layout?
      modifies this`layout, this`uploaded
      ensures Valid() && Model() == Step(old(Model()), SetLayout(compiled, hasText))
    {
      if compiled.None? { return; }
      var km := compiled.value;
      var table: map<Char, LayoutKey> := map[];
      var code := km.minCode;
      var max := if km.maxCode < 255 then km.maxCode else 255;
      while code <= max
        invariant AddCodes(table, km, code) == LayoutTable(km)
        decreases max + 1 - code
      {
        ghost var before := table;
        var levels := LevelsOf(km, code);
        var l := 0;
        while l < |levels|
          invariant l <= |levels|
          invariant AddLevels(table, code, levels, l) == AddLevels(before, code, levels, 0)
        {
          if |levels[l].syms| == 1 {
            var cp := CharOf(levels[l].syms[0]);
            if cp != 0 && cp !in table && levels[l].masks != [] {
              table := table[cp := LayoutKey((code + UINT32 - 8) % UINT32, levels[l].masks[0])];
            }
          }
          l := l + 1;
        }
        code := code + 1;
      }
      layout := Loaded(table, km, hasText);
      if uploaded == LayoutUploaded { uploaded := NothingUploaded; }
    }

    method IndexInBatch(cp: Char) returns (index: int)
      requires Valid()
      ensures index == BatchIndex(Model().batch, cp)
    {
      ghost var batch := batchKeys[..batchCount];
      for i := 0 to batchCount
        invariant IndexFrom(batch, cp, i) == BatchIndex(batch, cp)
      {
        if batchKeys[i] == cp {
          assert batch[i] == cp;
          return i;
        }
        assert batch[i] == batchKeys[i];
      }
      return -1;
    }

    /** `make_keymap_fd`: keycodes and symbols are written by two loops over the batch. */
    method MakeKeymap() returns (km: Keymap)
      requires Valid()
      ensures km == GeneratedKeymap(Model().batch)
    {
      var codes, syms := [], [];
      for i := 0 to batchCount
        invariant |codes| == i && forall k :: 0 <= k < i ==> codes[k] == k + 9
      {
        codes := codes + [i + 9];
      }
      for i := 0 to batchCount
        invariant |syms| == i && forall k :: 0 <= k < i ==> syms[k] == KeysymFor(batchKeys[k])
      {
        syms := syms + [KeysymFor(batchKeys[i])];
      }
      km := Generated(codes, syms);
    }

    method SendPress(code: nat, mask: Mask)
      requires Valid()
      modifies this`trace
      ensures Valid() && Model() == old(Model()).(trace := old(trace) + Press(code, mask))
    {
      trace := trace + [Modifiers(mask)];
      trace := trace + [Key(code, true)];
      trace := trace + [Key(code, false)];
      if mask != 0 { trace := trace + [Modifiers(0)]; }
    }

    method PressPendingRun()
      requires Valid() && jobs != [] && runEnd <= |jobs[0].chars|
      modifies this`trace, this`jobs
      ensures Valid() && Model() == PressRun(old(Model()))
    {
      ghost var s := Model();
      var job := jobs[0];
      var i := job.pos;
      while i < runEnd
        invariant jobs == s.jobs
        invariant trace + PressChars(s, job.chars, i, runEnd) == s.trace + PressChars(s, job.chars, job.pos, runEnd)
      {
        ghost var sent := trace;
        if runInLayout {
          var key := FindLayoutKey(layout, job.chars[i]);
          if key.Some? { SendPress(key.value.code, key.value.mask); }
        } else {
          var index := IndexInBatch(job.chars[i]);
          if index >= 0 { SendPress(index + 1, 0); }
        }
        assert trace == sent + PressChar(s, job.chars[i]);
        ConcatAssoc(sent, PressChar(s, job.chars[i]), PressChars(s, job.chars, i + 1, runEnd));
        i := i + 1;
      }
      jobs := jobs[0 := job.(pos := runEnd)];
    }

    method UploadKeymap(km: Keymap, kind: Uploaded)
      requires Valid()
      modifies this`trace, this`uploaded, this`runPending, this`timer
      ensures Valid() && Model() == Upload(old(Model()), km, kind)
    {
      trace := trace + [SetKeymap(km)];
      trace := trace + [Modifiers(0)];
      uploaded := kind;
      runPending := true;
      timer := true;
    }

    /** The loop of `upload_custom`. */
    method FillBatch()
      requires Valid() && jobs != [] && jobs[0].pos <= |jobs[0].chars|
      modifies batchKeys, this`batchCount, this`runEnd
      ensures Valid()
      ensures var (batch, end) := CollectBatch(layout, jobs[0].chars, jobs[0].pos, []);
              Model() == old(Model()).(batch := batch, runEnd := end)
    {
      var chars := jobs[0].chars;
      batchCount := 0;
      var end := jobs[0].pos;
      while end < |chars| && FindLayoutKey(layout, chars[end]).None?
        invariant Valid()
        invariant CollectBatch(layout, chars, end, batchKeys[..batchCount]) == CollectBatch(layout, chars, jobs[0].pos, [])
        decreases |chars| - end
      {
        var index := IndexInBatch(chars[end]);
        if index < 0 {
          if batchCount == BATCH_KEYS { break; }
          ghost var batch := batchKeys[..batchCount];
          batchKeys[batchCount] := chars[end];
          batchCount := batchCount + 1;
          assert batchKeys[..batchCount] == batch + [chars[end]];
        }
        end := end + 1;
      }
      runEnd := end;
    }

    method FinishHead()
      requires Valid() && jobs != []
      modifies this`jobs, this`timer
      ensures Valid() && Model() == Finish(old(Model()))
    {
      if jobs[0].pos >= |jobs[0].chars| { jobs := jobs[1..]; }
      timer := jobs != [];
    }

    method LayoutRun(ok: bool)
      requires Valid() && StartsLayoutRun(Model())
      modifies this
      ensures Valid() && Model() == RunJob(old(Model()), ok)
    {
      var job := jobs[0];
      var end := job.pos;
      while end < |job.chars| && FindLayoutKey(layout, job.chars[end]).Some?
        invariant job.pos <= end <= |job.chars|
        invariant LayoutRunEnd(layout, job.chars, end) == LayoutRunEnd(layout, job.chars, job.pos)
      {
        end := end + 1;
      }
      runEnd := end;
      runInLayout := true;
      if uploaded != LayoutUploaded && ok {
        UploadKeymap(layout.keymap, LayoutUploaded);
        return;
      }
      PressPendingRun();
      FinishHead();
    }

    method CustomRun(ok: bool)
      requires Valid() && StartsCustomRun(Model())
      modifies this, batchKeys
      ensures Valid() && Model() == RunJob(old(Model()), ok)
    {
      runInLayout := false;
      FillBatch();
      if ok {
        var km := MakeKeymap();
        UploadKeymap(km, CustomUploaded);
        return;
      }
      jobs := jobs[0 := jobs[0].(pos := |jobs[0].chars|)];
      FinishHead();
    }

    /** `run_job`. */
    method RunTimer(ok: bool)
      requires Valid() && (runPending && jobs != [] ==> runEnd <= |jobs[0].chars|)
      modifies this, batchKeys
      ensures Valid() && Model() == RunJob(old(Model()), ok)
    {
      if jobs == [] {
        timer := false;
      } else if runPending {
        runPending := false;
        PressPendingRun();
        FinishHead();
      } else if jobs[0].pos < |jobs[0].chars| {
        if FindLayoutKey(layout, jobs[0].chars[jobs[0].pos]).Some? && layout.hasText {
          LayoutRun(ok);
        } else {
          CustomRun(ok);
        }
      } else {
        FinishHead();
      }
    }

    /** `singularity_type_text`. */
    method Type(text: seq<Char>, connected: bool, ok: bool)
      requires Valid() && TypingProgress.Shape(Model())
      modifies this, batchKeys
      ensures Valid() && Model() == Step(old(Model()), TypeText(text, connected, ok))
      ensures TypingProgress.Shape(Model())
    {
      ghost var s := Model();
      if text == [] || !connected { return; }
      jobs := jobs + [Job(text, 0)];
      if !timer && |jobs| == 1 {
        ghost var queued := Model();
        TypingProgress.FiringProgress(queued, ok);
        RunTimer(ok);
      }
    }
  }
}
