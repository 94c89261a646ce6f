/** The virtual keyboard as the compositor sees it: keymaps, the requests of
    virtual-keyboard-unstable-v1, and the text a request trace types. */
module Keyboard {
  import opened Basics

  type Char = c: nat | 0 < c witness 1  // a Unicode code point; C strings hold no NUL
  type Mask = nat  // an xkb modifier mask

  const LF: Char := 10
  const CR: Char := 13
  const TAB: Char := 9
  /** Keysyms, as far as typing cares: `Unicode(0)` stands for any symbol without text. */
  datatype Keysym = Return | Tab | Unicode(cp: nat)

  /** The character a keysym enters; 0 when it enters none. */
  function CharOf(sym: Keysym): nat {
    match sym
    case Return => LF
    case Tab => TAB
    case Unicode(cp) => cp
  }

  /** One shift level of a key: its symbols and the modifier masks that select it. */
  datatype Level = Level(syms: seq<Keysym>, masks: seq<Mask>)

  /** A keymap is the compiled user layout, or a generated one-level keymap in which
      key number `i` has keycode `codes[i]` and symbol `syms[i]`. */
  datatype Keymap =
    | Layout(minCode: nat, maxCode: nat, keys: map<nat, seq<Level>>)
    | Generated(codes: seq<nat>, syms: seq<Keysym>)

  function LevelsOf(km: Keymap, keycode: nat): seq<Level> {
    if km.Layout? && keycode in km.keys then km.keys[keycode] else []
  }

  /** No mask selects two levels of the same key. */
  ghost predicate MasksSelectLevels(km: Keymap) {
    forall code, l1, l2, m |
      && 0 <= l1 < |LevelsOf(km, code)|
      && 0 <= l2 < |LevelsOf(km, code)|
      && m in LevelsOf(km, code)[l1].masks
      && m in LevelsOf(km, code)[l2].masks
      :: l1 == l2
  }

  function SymsText(syms: seq<Keysym>): seq<Char> {
    if |syms| == 1 && CharOf(syms[0]) != 0 then [CharOf(syms[0])] else []
  }

  function LevelText(levels: seq<Level>, mask: Mask): seq<Char> {
    if levels == [] then []
    else if mask in levels[0].masks then SymsText(levels[0].syms)
    else LevelText(levels[1..], mask)
  }

  function GeneratedText(codes: seq<nat>, syms: seq<Keysym>, keycode: nat): seq<Char> {
    if codes == [] || syms == [] then []
    else if codes[0] == keycode then SymsText([syms[0]])
    else GeneratedText(codes[1..], syms[1..], keycode)
  }

  /** The text entered by pressing `keycode` under `mask`. */
  function KeyText(km: Keymap, keycode: nat, mask: Mask): seq<Char> {
    match km
    case Layout(_, _, _) => LevelText(LevelsOf(km, keycode), mask)
    case Generated(codes, syms) => GeneratedText(codes, syms, keycode)
  }

  /** Requests on zwp_virtual_keyboard_v1. */
  datatype Request = SetKeymap(km: Keymap) | Modifiers(mask: Mask) | Key(code: nat, pressed: bool)

  /** What the compositor has made of the requests so far.  `legal` is lost by a key or
      modifiers request that arrives before any keymap. */
  datatype View = View(keymap: Option<Keymap>, mods: Mask, text: seq<Char>, legal: bool)

  const FRESH_VIEW := View(None, 0, [], true)

  function Apply(v: View, r: Request): View {
    match r
    case SetKeymap(km) => v.(keymap := Some(km))
    case Modifiers(mask) => if v.keymap.None? then v.(legal := false) else v.(mods := mask)
    case Key(code, pressed) =>
      if v.keymap.None? then v.(legal := false)
      else if pressed then v.(text := v.text + KeyText(v.keymap.value, (code + 8) % UINT32, v.mods))
      else v
  }

  function Replay(v: View, trace: seq<Request>): View
    decreases |trace|
  {
    if trace == [] then v else Replay(Apply(v, trace[0]), trace[1..])
  }

  lemma {:induction false} ReplayConcat(v: View, a: seq<Request>, b: seq<Request>)
    ensures Replay(v, a + b) == Replay(Replay(v, a), b)
    decreases |a|
  {
    if a == [] {
      assert a + b == b;
    } else {
      assert (a + b)[0] == a[0] && (a + b)[1..] == a[1..] + b;
      ReplayConcat(Apply(v, a[0]), a[1..], b);
    }
  }

  /** A level reached through one of its own masks enters its own symbol. */
  lemma {:induction false} LevelTextAt(levels: seq<Level>, l: nat, mask: Mask)
    requires l < |levels| && mask in levels[l].masks
    requires forall k :: 0 <= k < |levels| && mask in levels[k].masks ==> k == l
    ensures LevelText(levels, mask) == SymsText(levels[l].syms)
    decreases levels
  {
    if l > 0 {
      assert mask !in levels[0].masks;
      forall k | 0 <= k < |levels[1..]| && mask in levels[1..][k].masks ensures k == l - 1 {
        assert levels[1..][k] == levels[k + 1];
      }
      LevelTextAt(levels[1..], l - 1, mask);
    }
  }

  /** In a generated keymap with distinct keycodes a keycode enters its own symbol. */
  lemma {:induction false} GeneratedTextAt(codes: seq<nat>, syms: seq<Keysym>, i: nat)
    requires |codes| == |syms| && i < |codes|
    requires forall j, k :: 0 <= j < k < |codes| ==> codes[j] != codes[k]
    ensures GeneratedText(codes, syms, codes[i]) == SymsText([syms[i]])
    decreases i
  {
    if i > 0 {
      GeneratedTextAt(codes[1..], syms[1..], i - 1);
    }
  }

  /** Which keys the requests leave held, and whether each press found its key up and each release
      found it down. */
  datatype Hands = Hands(held: set<nat>, apt: bool)

  const NO_HANDS := Hands({}, true)

  function Touch(h: Hands, r: Request): Hands {
    match r
    case Key(code, true) => Hands(h.held + {code}, h.apt && code !in h.held)
    case Key(code, false) => Hands(h.held - {code}, h.apt && code in h.held)
    case _ => h
  }

  function TouchAll(h: Hands, trace: seq<Request>): Hands
    decreases |trace|
  {
    if trace == [] then h else TouchAll(Touch(h, trace[0]), trace[1..])
  }

  lemma {:induction false} TouchConcat(h: Hands, a: seq<Request>, b: seq<Request>)
    ensures TouchAll(h, a + b) == TouchAll(TouchAll(h, a), b)
    decreases |a|
  {
    if a == [] {
      assert a + b == b;
    } else {
      assert (a + b)[0] == a[0] && (a + b)[1..] == a[1..] + b;
      TouchConcat(Touch(h, a[0]), a[1..], b);
    }
  }
}
