/** What PAM is asked, over every run: keys, frames, hotplug and repaints in any order. */
module LockPassword {
  import opened Basics
  import opened LockSpec
  import opened LockTheorems

  // ---------------------------------------------------------------- what is promised

  /** The text a key leaves behind. */
  function Edited(text: seq<byte>, k: KeyAction): seq<byte> {
    match k
    case BackSpace => if text == [] then [] else text[..|text| - 1]
    case Escape => []
    case TypeText(more) => if more != [] && more[0] >= 0x20 && |text| + |more| <= 1022 then text + more else text
    case _ => text
  }

  /** The text a sequence of keys leaves behind in an empty field. */
  function EditAll(keys: seq<KeyAction>): seq<byte> {
    if keys == [] then [] else Edited(EditAll(keys[..|keys| - 1]), keys[|keys| - 1])
  }

  /** Keys count until the session starts to leave. */
  predicate Heeded(s: State, e: Event) { e.KeyEvent? && s.phase != Leave }

  /** The keys pressed since the field was last submitted. */
  function KeysSince(reduced: bool, events: seq<Event>): seq<KeyAction> {
    if events == [] then []
    else
      var before, e := events[..|events| - 1], events[|events| - 1];
      if !Heeded(Run(reduced, before), e) then KeysSince(reduced, before)
      else if e.key.EnterKey? then []
      else KeysSince(reduced, before) + [e.key]
  }

  /** What the keys and the fingerprint reader give rise to: each Enter on a field that is not
      empty asks PAM for exactly the text of the keys since the last one, and only PAM's consent
      or a fingerprint authenticates. */
  function Ledger(reduced: bool, events: seq<Event>): seq<Fact> {
    if events == [] then []
    else
      var before, e := events[..|events| - 1], events[|events| - 1];
      Ledger(reduced, before) +
      (if e.FingerprintEvent? then [Authenticated]
       else if Heeded(Run(reduced, before), e) && e.key.EnterKey? then Answer(EditAll(KeysSince(reduced, before)), e.key.granted)
       else [])
  }

  function Answer(typed: seq<byte>, granted: bool): seq<Fact> {
    if typed == [] then [] else if granted then [Attempted(typed), Authenticated] else [Attempted(typed)]
  }

  /** The facts other than the unlocking. */
  function Asked(facts: seq<Fact>): seq<Fact> {
    if facts == [] then []
    else Asked(facts[..|facts| - 1]) + (if facts[|facts| - 1].Unlocked? then [] else [facts[|facts| - 1]])
  }

  // ---------------------------------------------------------------- what steps do to it

  lemma {:induction false} AskedSnoc(facts: seq<Fact>, f: Fact)
    ensures Asked(facts + [f]) == Asked(facts) + (if f.Unlocked? then [] else [f])
  {
    assert (facts + [f])[..|facts|] == facts;
  }

  lemma {:induction false} AskedAnswer(facts: seq<Fact>, typed: seq<byte>, granted: bool)
    requires typed != []
    ensures Asked(facts + Answer(typed, granted)) == Asked(facts) + Answer(typed, granted)
  {
    AskedSnoc(facts, Attempted(typed));
    if granted {
      AskedSnoc(facts + [Attempted(typed)], Authenticated);
      assert facts + [Attempted(typed)] + [Authenticated] == facts + Answer(typed, granted);
    }
  }

  /** Painting leaves the field and the facts alone. */
  ghost predicate SameText(s: State, s': State) {
    s'.password == s.password && s'.facts == s.facts && (s'.phase == Leave <==> s.phase == Leave)
  }

  lemma {:induction false} PaintKeepsText(s: State, i: nat, paints: seq<Paint>)
    ensures SameText(s, RenderFrom(s, i, paints))
    decreases |s.outputs| - i
  {
    if i < |s.outputs| {
      if s.outputs[i].configured {
        RenderRepaints(s, i, PaintOf(paints, i));
        PaintKeepsText(Render(s, i, PaintOf(paints, i)), i + 1, paints);
      } else {
        PaintKeepsText(s, i + 1, paints);
      }
    }
  }

  lemma LeaveKeepsText(s: State, paints: seq<Paint>)
    ensures BeginLeave(s, paints).password == s.password && Asked(BeginLeave(s, paints).facts) == Asked(s.facts)
  {
    if s.phase != Leave {
      AskedSnoc(s.facts, Unlocked);
      PaintKeepsText(s.(shaking := false, phase := Leave, started := false), 0, paints);
    }
  }

  /** One Enter, in any state and whatever is painted: the field is submitted as it stands and
      empty afterwards, and without PAM's consent the session neither leaves nor stops. */
  lemma EnterSubmits(s: State, granted: bool, first: seq<Paint>, second: seq<Paint>)
    requires s.phase != Leave
    ensures var s' := Submit(s, granted, first, second);
            && s'.password == [] && Asked(s'.facts) == Asked(s.facts) + Answer(s.password, granted)
            && (!granted ==> s'.phase != Leave && s'.running == s.running)
  {
    if s.password != [] {
      PaintKeepsText(s, 0, first);
      PaintKeepsRunning(s, 0, first);
      var asked := RenderAll(s, first);
      AskedAnswer(s.facts, s.password, granted);
      var wiped := asked.(password := [], facts := asked.facts + [Attempted(s.password)]);
      if granted {
        var g := wiped.(facts := wiped.facts + [Authenticated]);
        assert g.facts == s.facts + Answer(s.password, true);
        LeaveKeepsText(g, second);
      } else {
        var shaken := wiped.(shaking := wiped.shaking || !wiped.reduced);
        PaintKeepsText(shaken, 0, second);
        PaintKeepsRunning(shaken, 0, second);
      }
    }
  }

  lemma {:induction false} PaintKeepsRunning(s: State, i: nat, paints: seq<Paint>)
    ensures RenderFrom(s, i, paints).running == s.running
    decreases |s.outputs| - i
  {
    if i < |s.outputs| {
      if s.outputs[i].configured {
        RenderRepaints(s, i, PaintOf(paints, i));
        PaintKeepsRunning(Render(s, i, PaintOf(paints, i)), i + 1, paints);
      } else {
        PaintKeepsRunning(s, i + 1, paints);
      }
    }
  }

  lemma KeyEdits(s: State, k: KeyAction, first: seq<Paint>, second: seq<Paint>)
    requires s.phase != Leave && !k.EnterKey?
    ensures KeyPress(s, k, first, second).password == Edited(s.password, k)
    ensures KeyPress(s, k, first, second).facts == s.facts
  {
    match k
    case BackSpace => PaintKeepsText(if s.password != [] then s.(password := s.password[..|s.password| - 1]) else s, 0, first);
    case Escape => PaintKeepsText(s.(password := []), 0, first);
    case MediaKey =>
    case TypeText(text) => PaintKeepsText(s.(password := s.password + text), 0, first);
  }

  lemma OtherKeepsText(s: State, e: Event)
    requires Enabled(s, e) && !e.KeyEvent? && !e.FingerprintEvent?
    ensures Step(s, e).password == s.password && Asked(Step(s, e).facts) == Asked(s.facts)
  {
    AskedSnoc(s.facts, Unlocked);
    match e
    case FrameEvent(i, elapsed, p) => RenderRepaints(SetOutput(s, i, s.outputs[i].(frame := false)), i, p);
    case ConfigureEvent(i, p) => RenderRepaints(SetOutput(s, i, s.outputs[i].(configured := true)), i, p);
    case RepaintEvent(first) => PaintKeepsText(s, 0, first);
    case _ =>
  }

  lemma FingerprintKeepsText(s: State, first: seq<Paint>, second: seq<Paint>)
    ensures var s' := FingerprintMatch(s, first, second);
            s'.password == s.password && Asked(s'.facts) == Asked(s.facts) + [Authenticated]
  {
    var matched := s.(facts := s.facts + [Authenticated]);
    AskedSnoc(s.facts, Authenticated);
    PaintKeepsText(matched, 0, first);
    LeaveKeepsText(RenderAll(matched, first), second);
  }

  // ---------------------------------------------------------------- whole runs

  lemma KeysSinceSnoc(keys: seq<KeyAction>, k: KeyAction)
    ensures EditAll(keys + [k]) == Edited(EditAll(keys), k)
  {
    assert (keys + [k])[..|keys|] == keys;
  }

  /** What PAM is asked is exactly what was typed.  After every sequence of events, whatever was
      painted, plugged or refused in between, the field holds the text of the keys since it was
      last submitted, never more than 1022 bytes; and the questions put to PAM and the
      authentications are exactly those of the ledger, in order. */
  lemma {:induction false} SubmitsWhatWasTyped(reduced: bool, events: seq<Event>)
    ensures Run(reduced, events).password == EditAll(KeysSince(reduced, events))
    ensures |EditAll(KeysSince(reduced, events))| <= 1022
    ensures Asked(Run(reduced, events).facts) == Ledger(reduced, events)
    decreases |events|
  {
    RunKeeps(reduced, events);
    if events != [] {
      var before, e := events[..|events| - 1], events[|events| - 1];
      var s := Run(reduced, before);
      SubmitsWhatWasTyped(reduced, before);
      if Enabled(s, e) {
        if Heeded(s, e) {
          if e.key.EnterKey? {
            EnterSubmits(s, e.key.granted, e.first, e.second);
          } else {
            KeyEdits(s, e.key, e.first, e.second);
            KeysSinceSnoc(KeysSince(reduced, before), e.key);
          }
        } else if e.FingerprintEvent? {
          FingerprintKeepsText(s, e.first, e.second);
        } else if !e.KeyEvent? {
          OtherKeepsText(s, e);
        }
      }
    }
  }
}
