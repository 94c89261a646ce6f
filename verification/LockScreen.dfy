/** The lock screen as the program keeps it: static variables, the list of outputs and a
    fixed password buffer.  Every handler is proved to be its step. */
module LockScreen {
  import opened Basics
  import opened LockSpec

  class Screen {
    var outputs: seq<Output>
    var phase: Phase
    var started: bool
    var shaking: bool
    var locked: bool
    var running: bool
    const reduced: bool
    const buffer: array<byte>
    var length: nat
    var facts: seq<Fact>

    ghost predicate Valid()
      reads this, buffer
    {
      buffer.Length == PASSWORD_SIZE && length < PASSWORD_SIZE - 1
    }

    ghost function Model(): State
      requires Valid()
      reads this, buffer
    {
      State(outputs, phase, started, shaking, locked, running, reduced, buffer[..length], facts)
    }

    constructor (reducedMotion: bool)
      ensures Valid() && Model() == Init(reducedMotion) && fresh(buffer)
    {
      outputs, phase, started, shaking, locked, running := [], Enter, false, false, false, true;
      reduced, length, facts := reducedMotion, 0, [];
      buffer := new byte[PASSWORD_SIZE](_ => 0);
    }

    /** `apply_motion`. */
    method ApplyMotion(p: Paint) returns (animating: bool)
      requires Valid()
      modifies this`phase, this`started, this`shaking
      ensures Valid() && (Model(), animating) == Motion(old(Model()), p)
    {
      animating := false;
      if phase != Idle {
        started := true;
        if p.atEnd {
          if phase != Leave { phase := Idle; }
        } else {
          animating := true;
        }
      }
      if p.calm { shaking := false; }
      if shaking { animating := true; }
    }

    /** `render_output`. */
    method RenderOutput(i: nat, p: Paint)
      requires Valid() && i < |outputs|
      modifies this`outputs, this`phase, this`started, this`shaking
      ensures Valid() && Model() == Render(old(Model()), i, p)
    {
      if outputs[i].frame { return; }
      if !p.buffer {
        outputs := outputs[i := outputs[i].(starved := true)];
        return;
      }
      var animating := ApplyMotion(p);
      outputs := outputs[i := outputs[i].(frame := animating || phase == Leave, starved := false)];
    }

    /** `render_all`. */
    method RenderEvery(paints: seq<Paint>)
      requires Valid()
      modifies this`outputs, this`phase, this`started, this`shaking
      ensures Valid() && Model() == RenderAll(old(Model()), paints)
    {
      ghost var s := Model();
      var i := 0;
      while i < |outputs|
        invariant Valid() && RenderFrom(Model(), i, paints) == RenderAll(s, paints)
        invariant |outputs| == |s.outputs|
        decreases |s.outputs| - i
      {
        if outputs[i].configured { RenderOutput(i, PaintOf(paints, i)); }
        i := i + 1;
      }
    }

    method UnlockSession()
      requires Valid()
      modifies this`facts, this`running
      ensures Valid() && Model() == Unlock(old(Model()))
    {
      facts := facts + [Unlocked];
      running := false;
    }

    method CheckConfigured() returns (any: bool)
      requires Valid()
      ensures any == AnyConfigured(Model())
    {
      any := false;
      for i := 0 to |outputs|
        invariant any <==> exists k :: 0 <= k < i && outputs[k].configured
      {
        if outputs[i].configured { any := true; }
      }
    }

    /** `begin_leave`. */
    method Leaving(paints: seq<Paint>)
      requires Valid()
      modifies this
      ensures Valid() && Model() == BeginLeave(old(Model()), paints)
      ensures buffer[..] == old(buffer[..]) && length == old(length)
    {
      if phase == Leave { return; }
      var any := CheckConfigured();
      if !any {
        UnlockSession();
        return;
      }
      shaking := false;
      phase := Leave;
      started := false;
      RenderEvery(paints);
    }

    /** `frame_done`. */
    method OnFrame(i: nat, elapsed: bool, p: Paint)
      requires Valid() && i < |outputs|
      modifies this
      ensures Valid() && Model() == FrameDone(old(Model()), i, elapsed, p)
    {
      outputs := outputs[i := outputs[i].(frame := false)];
      if phase == Leave && started && elapsed {
        phase := Idle;
        UnlockSession();
        return;
      }
      RenderOutput(i, p);
    }

    /** `lock_surface_configure`. */
    method OnConfigure(i: nat, p: Paint)
      requires Valid() && i < |outputs|
      modifies this
      ensures Valid() && Model() == Configure(old(Model()), i, p)
    {
      outputs := outputs[i := outputs[i].(configured := true)];
      RenderOutput(i, p);
    }

    /** `reg_remove`. */
    method OnRemove(name: nat)
      requires Valid()
      modifies this
      ensures Valid() && Model() == RemoveOutput(old(Model()), name)
    {
      ghost var s := Model();
      for i := 0 to |outputs|
        invariant Valid() && Model() == s && Find(outputs, name, i) == Find(s.outputs, name, 0)
      {
        if outputs[i].name == name {
          outputs := outputs[..i] + outputs[i + 1..];
          if phase == Leave {
            var any := CheckConfigured();
            if !any { UnlockSession(); }
          }
          return;
        }
      }
    }

    /** `submit_password`: the whole buffer is zero afterwards, whatever PAM answered. */
    method SubmitPassword(granted: bool, first: seq<Paint>, second: seq<Paint>)
      requires Valid()
      modifies this, buffer
      ensures Valid() && Model() == Submit(old(Model()), granted, first, second)
      ensures old(length) > 0 ==> forall k :: 0 <= k < PASSWORD_SIZE ==> buffer[k] == 0
    {
      if length == 0 { return; }
      buffer[length] := 0;
      RenderEvery(first);
      var attempt := buffer[..length];
      facts := facts + [Attempted(attempt)];
      forall k | 0 <= k < buffer.Length { buffer[k] := 0; }
      length := 0;
      if granted {
        facts := facts + [Authenticated];
        Leaving(second);
      } else {
        if !reduced { shaking := true; }
        RenderEvery(second);
      }
    }

    /** The `memcpy` of one key's text. */
    method Append(text: seq<byte>)
      requires Valid() && length + |text| < PASSWORD_SIZE - 1
      modifies buffer, this`length
      ensures Valid() && Model() == old(Model()).(password := old(Model()).password + text)
    {
      ghost var before := buffer[..length];
      for k := 0 to |text|
        invariant Valid() && length == old(length)
        invariant buffer[..length] == before && buffer[length..length + k] == text[..k]
      {
        ghost var copied := buffer[length..length + k];
        buffer[length + k] := text[k];
        assert buffer[length..length + k + 1] == copied + [text[k]];
      }
      assert buffer[..length + |text|] == before + text;
      length := length + |text|;
    }

    /** `kb_key`, for a pressed key. */
    method OnKey(key: KeyAction, first: seq<Paint>, second: seq<Paint>)
      requires Valid()
      modifies this, buffer
      ensures Valid() && Model() == KeyPress(old(Model()), key, first, second)
    {
      if phase == Leave { return; }
      match key
      case EnterKey(granted) =>
        SubmitPassword(granted, first, second);
      case BackSpace =>
        if length > 0 {
          length := length - 1;
          buffer[length] := 0;
          assert buffer[..length] == old(buffer[..length])[..length];
        }
        RenderEvery(first);
      case Escape =>
        length := 0;
        buffer[0] := 0;
        RenderEvery(first);
      case MediaKey =>
      case TypeText(text) =>
        if text != [] && text[0] >= 0x20 && length + |text| < PASSWORD_SIZE - 1 {
          Append(text);
          RenderEvery(first);
        }
    }

    /** `on_fprint_match`. */
    method OnFingerprint(first: seq<Paint>, second: seq<Paint>)
      requires Valid()
      modifies this
      ensures Valid() && Model() == FingerprintMatch(old(Model()), first, second)
    {
      facts := facts + [Authenticated];
      RenderEvery(first);
      Leaving(second);
    }
  }
}
