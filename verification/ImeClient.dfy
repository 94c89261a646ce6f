/** The input method client as the program keeps it: static variables, the shadow array of
    forwarded keys and its clearing loop.  Every handler is proved to be its step. */
module ImeClient {
  import opened Basics
  import opened ImeSpec

  class Client {
    var grab: Option<nat>
    var nextGrab: nat
    var keymapSet: bool
    const forwarded: array<bool>
    var pending: Doc
    var current: Doc
    var heap: Heap
    var serial: nat
    var wantGrab: bool
    var keyDepth: nat
    var wire: seq<Wire>

    ghost predicate Valid()
      reads this
    {
      forwarded.Length == KEY_COUNT
    }

    ghost function Model(): State
      reads this, forwarded
    {
      State(grab, nextGrab, keymapSet, forwarded[..], pending, current, heap, serial, wantGrab, keyDepth, wire)
    }

    constructor (want: bool)
      ensures Valid() && Model() == Init(want, seq(KEY_COUNT, _ => false)) && fresh(forwarded)
    {
      grab, nextGrab, keymapSet, pending, current := None, 0, false, NO_DOC, NO_DOC;
      heap, serial, wantGrab, keyDepth, wire := Heap(map[], 0, true), 0, want, 0, [];
      forwarded := new bool[KEY_COUNT](_ => false);
      new;
      assert forwarded[..] == seq(KEY_COUNT, _ => false);
    }

    method SendKey(key: nat, pressed: bool)
      modifies this`wire
      ensures Model() == SendForward(old(Model()), key, pressed)
    {
      if !keymapSet { return; }
      wire := wire + [Key(key, pressed)];
    }

    /** `singularity_ime_forward_key`. */
    method Forward(key: nat, pressed: bool)
      requires Valid()
      modifies this`wire, forwarded
      ensures Model() == ForwardKey(old(Model()), key, pressed)
    {
      SendKey(key, pressed);
      if key < KEY_COUNT { forwarded[key] := pressed; }
    }

    /** `release_forwarded_keys`. */
    method ReleaseKeys()
      requires Valid()
      modifies this`wire, forwarded
      ensures Model() == ReleaseForwardedKeys(old(Model()))
    {
      ghost var s := Model();
      for key := 0 to KEY_COUNT
        invariant ReleaseFrom(Model(), key) == ReleaseFrom(s, 0)
      {
        if forwarded[key] {
          SendKey(key, false);
          forwarded[key] := false;
        }
      }
      assert Model() == ReleaseFrom(s, 0);
      if keymapSet { wire := wire + [Modifiers(NO_MODS)]; }
    }

    /** `update_grab`. */
    method Update()
      requires Valid()
      modifies this`grab, this`nextGrab, this`wire, forwarded
      ensures Model() == UpdateGrab(old(Model()))
    {
      if keyDepth != 0 { return; }
      var wanted := wantGrab && current.active;
      if wanted && grab.None? {
        grab := Some(nextGrab);
        wire := wire + [GrabKeyboard(nextGrab)];
        nextGrab := nextGrab + 1;
      } else if !wanted && grab.Some? {
        ReleaseKeys();
        wire := wire + [ReleaseGrab(grab.value)];
        grab := None;
      }
    }

    method RequestGrab(want: bool)
      requires Valid()
      modifies this`wantGrab, this`grab, this`nextGrab, this`wire, forwarded
      ensures Model() == SetGrab(old(Model()), want)
    {
      wantGrab := want;
      Update();
    }

    /** `singularity_ime_preedit`. */
    method ShowPreedit(text: Text, cursor: Cursor)
      modifies this`wire
      ensures Model() == SendPreedit(old(Model()), text, cursor)
    {
      if !current.active { return; }
      ghost var sent := wire;
      if text != [] { wire := wire + [Preedit(text, cursor)]; }
      assert wire == sent + (if text != [] then [Preedit(text, cursor)] else []);
      wire := wire + [Commit(serial)];
    }

    /** `singularity_ime_replace`. */
    method Replace(before: nat, after: nat, text: Text)
      modifies this`wire
      ensures Model() == SendReplace(old(Model()), before, after, text)
    {
      if !current.active { return; }
      ghost var sent := wire;
      if before > 0 || after > 0 { wire := wire + [DeleteSurrounding(before, after)]; }
      assert wire == sent + (if before > 0 || after > 0 then [DeleteSurrounding(before, after)] else []);
      sent := wire;
      if text != [] { wire := wire + [CommitString(text)]; }
      assert wire == sent + (if text != [] then [CommitString(text)] else []);
      wire := wire + [Commit(serial)];
    }

    /** A callback: any sequence of API calls. */
    method Callback(script: seq<Action>)
      requires Valid()
      modifies this`wantGrab, this`grab, this`nextGrab, this`wire, forwarded
      ensures Model() == ActAll(old(Model()), script)
    {
      ghost var s := Model();
      var rest := script;
      while rest != []
        invariant ActAll(Model(), rest) == ActAll(s, script)
        decreases |rest|
      {
        match rest[0] {
          case DoSetGrab(want) => RequestGrab(want);
          case DoForward(key, pressed) => Forward(key, pressed);
          case DoPreedit(text, cursor) => ShowPreedit(text, cursor);
          case DoReplace(before, after, text) => Replace(before, after, text);
        }
        rest := rest[1..];
      }
    }

    /** `grab_key`. */
    method OnGrabKey(from: nat, key: nat, pressed: bool, script: seq<Action>, consumed: bool)
      requires Valid()
      modifies this`keyDepth, this`wantGrab, this`grab, this`nextGrab, this`wire, forwarded
      ensures Model() == GrabKey(old(Model()), from, key, pressed, script, consumed)
    {
      if grab != Some(from) { return; }
      var depth := keyDepth;
      keyDepth := keyDepth + 1;
      Callback(script);
      Pass(key, pressed, consumed);
      keyDepth := depth;
      Update();
    }

    method Pass(key: nat, pressed: bool, consumed: bool)
      requires Valid()
      modifies this`wire, forwarded
      ensures Model() == PassKey(old(Model()), key, pressed, consumed)
    {
      if key >= KEY_COUNT {
        if !consumed { SendKey(key, pressed); }
      } else if pressed {
        if !consumed {
          SendKey(key, true);
          forwarded[key] := true;
        }
      } else if forwarded[key] {
        SendKey(key, false);
        forwarded[key] := false;
      }
    }

    method OnGrabModifiers(from: nat, mods: Mods)
      modifies this`wire
      ensures Model() == GrabModifiers(old(Model()), from, mods)
    {
      if grab != Some(from) { return; }
      if keymapSet { wire := wire + [Modifiers(mods)]; }
    }

    method GFree(p: Option<nat>)
      modifies this`heap
      ensures heap == Free(old(heap), p)
    {
      if p.Some? {
        heap := Heap(heap.live - {p.value}, heap.next, heap.safe && p.value in heap.live);
      }
    }

    method OnActivate()
      modifies this`heap, this`pending
      ensures Model() == Activate(old(Model()))
    {
      GFree(pending.surrounding);
      pending := NO_DOC.(active := true);
    }

    method OnSurroundingText(text: Text, cursor: nat)
      modifies this`heap, this`pending
      ensures Model() == SurroundingText(old(Model()), text, cursor)
    {
      GFree(pending.surrounding);
      var ptr := heap.next;
      heap := heap.(live := heap.live[ptr := text], next := ptr + 1);
      pending := pending.(surrounding := Some(ptr));
      pending := pending.(cursor := cursor);
    }

    /** `im_done`: the struct is copied first, its string pointer replaced afterwards. */
    method OnDone(script: seq<Action>)
      requires Valid()
      modifies this, forwarded
      ensures Model() == Done(old(Model()), script)
    {
      wire := wire + [DoneReceived];
      serial := (serial + 1) % UINT32;
      GFree(current.surrounding);
      current := pending;
      var (next, copy) := Duplicate(heap, pending.surrounding);
      heap := next;
      current := current.(surrounding := copy);
      assert Model() == ApplyPending(old(Model()));
      Update();
      Callback(script);
    }
  }
}
