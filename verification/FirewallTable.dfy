/** The rule table as the program keeps it: a fixed array filled, edited and printed in place. */
module FirewallTable {
  import opened Basics
  import opened CText
  import opened FirewallPorts
  import opened FirewallFile
  import opened FirewallCommands
  import opened FirewallRuleset

  const TABLE := "inet singularity_firewall"

  const RESET := "table " + TABLE + "\n" + ("delete table " + TABLE + "\n")
  const OPEN_TABLE := "table " + TABLE + " {\n"
  const OPEN_CHAIN := "\tchain " + "input {\n"
  const HOOK := "\t\ttype filter hook input " + "priority filter; policy drop;\n"
  const OPEN := OPEN_TABLE + (OPEN_CHAIN + HOOK)
  const CLOSE := "\t}\n" + "}\n"

  /** Rules written one after the other. */
  function PrintAll(write: ChainRule -> Str, chain: seq<ChainRule>): Str {
    if chain == [] then [] else PrintAll(write, chain[..|chain| - 1]) + write(chain[|chain| - 1])
  }

  function LinesOf(chain: seq<ChainRule>): Str { PrintAll(RuleLine, chain) }

  /** What is piped into nft: the old table is dropped, and a chain follows when enabled. */
  function RulesetText(st: State): Str {
    RESET + (if st.enabled then OPEN + LinesOf(Chain(st)) + CLOSE else [])
  }

  lemma LinesSnoc(chain: seq<ChainRule>, r: ChainRule)
    ensures LinesOf(chain + [r]) == LinesOf(chain) + RuleLine(r)
  {
    assert (chain + [r])[..|chain|] == chain;
  }

  /** A rule line of a valid rule is shorter than the line buffer. */
  lemma ItemLineFits(proto: Str, ports: Str, title: Str)
    requires |proto| + |ports| <= 255 && |title| <= 64
    ensures |RuleLine(Dport(proto, ports, Some(title)))| < LINE
  {
  }

  lemma ShortEnough(text: Str)
    requires |text| < LINE
    ensures Snprintf(text, LINE) == text
  {
  }

  class Table {
    var enabled: bool
    var publicProfile: bool
    var count: nat
    const rules: array<Rule>

    ghost predicate Valid()
      reads this, rules
    {
      rules.Length == MAX_RULES && count <= MAX_RULES
    }

    ghost function Model(): State
      requires Valid()
      reads this, rules
    {
      State(enabled, publicProfile, rules[..count])
    }

    constructor ()
      ensures Valid() && Model() == EMPTY && fresh(rules)
    {
      enabled, publicProfile, count := false, false, 0;
      rules := new Rule[MAX_RULES](_ => Rule([], false, [], []));
    }

    method Append(r: Rule)
      requires Valid() && count < MAX_RULES
      modifies rules, this`count
      ensures Valid() && Model() == old(Model()).(rules := old(Model()).rules + [r])
    {
      rules[count] := r;
      count := count + 1;
    }

    /** One line of the state file. */
    method LoadLine(line: Str)
      requires Valid()
      modifies this, rules
      ensures Valid() && Model() == ParseLine(old(Model()), line)
    {
      if HasPrefix(line, "enabled ") {
        enabled := line[8..] == "1";
      } else if HasPrefix(line, "profile ") {
        publicProfile := line[8..] == "public";
      } else if HasPrefix(line, "rule ") && count < MAX_RULES {
        var (id, rest1) := Strtok(line[5..], ' ');
        var (pub, rest2) := Strtok(rest1, ' ');
        var (ports, title) := Strtok(rest2, ' ');
        if id.None? || pub.None? || ports.None? { return; }
        var okId := CheckId(id.value);
        var okPorts := CheckPorts(ports.value);
        var okLabel := CheckLabel(title);
        if !okId || !okPorts || !okLabel { return; }
        Append(Rule(Snprintf(id.value, 33), pub.value == "1", Snprintf(ports.value, 256), Snprintf(title, 65)));
      }
    }

    /** `load_state`. */
    method LoadState(file: Option<Str>)
      requires Valid()
      modifies this, rules
      ensures Valid() && Model() == Load(file)
    {
      enabled, publicProfile, count := false, false, 0;
      if file.None? { return; }
      var rest := file.value;
      while rest != []
        invariant Valid()
        invariant ParseChunks(Model(), Chunks(rest)) == Load(file)
        decreases |rest|
      {
        var n := ChunkLength(rest);
        ghost var chunks := Chunks(rest);
        assert chunks[0] == rest[..n] && chunks[1..] == Chunks(rest[n..]);
        LoadLine(LineOf(rest[..n]));
        rest := rest[n..];
      }
    }

    /** The text `save_state` writes. */
    method SaveState() returns (text: Str)
      requires Valid()
      ensures text == Print(Model())
    {
      var header := ("enabled " + Bit(enabled)) + ['\n'];
      var body := ("profile " + ProfileName(publicProfile)) + ['\n'];
      ghost var all := Model().rules;
      var lines: Str := [];
      for i := 0 to count
        invariant lines + PrintRules(all[i..]) == PrintRules(all)
      {
        var line := RuleText(rules[i]) + ['\n'];
        assert all[i..][0] == rules[i] && all[i..][1..] == all[i + 1..];
        assert lines + (line + PrintRules(all[i + 1..])) == (lines + line) + PrintRules(all[i + 1..]);
        lines := lines + line;
      }
      assert all[count..] == [];
      assert lines + [] == lines;
      text := header + (body + lines);
    }

    /** `allow`: 0 when the rule was stored, 2 for an invalid rule, 1 when the table is full. */
    method AllowRule(id: Str, pub: Str, ports: Str, title: Str) returns (code: nat)
      requires Valid()
      modifies this, rules
      ensures Valid()
      ensures var edit := Edit(old(Model()), Allow(id, pub, ports, title));
              && (edit.Some? ==> code == 0 && Model() == edit.value)
              && (edit.None? ==> code > 0 && Model() == old(Model()))
      ensures code == 2 <==> !(ValidId(id) && (pub == "0" || pub == "1") && ValidPorts(ports) && ValidLabel(title))
    {
      ghost var before := Model();
      var okId := CheckId(id);
      var okPorts := CheckPorts(ports);
      var okLabel := CheckLabel(title);
      if !okId || (pub != "0" && pub != "1") || !okPorts || !okLabel { return 2; }
      var slot := -1;
      for r := 0 to count
        invariant slot == SlotIn(before.rules, id, r)
      {
        if rules[r].id == id { slot := r; }
      }
      SlotSpec(before.rules, id, count);
      if slot < 0 {
        if count >= MAX_RULES { return 1; }
        slot := count;
        count := count + 1;
      }
      rules[slot] := Rule(Snprintf(id, 33), pub == "1", Snprintf(ports, 256), Snprintf(title, 65));
      ghost var r := Rule(id, pub == "1", ports, title);
      assert before.rules == old(rules[..count]);
      assert Put(before.rules, r).value == rules[..count];
      code := 0;
    }

    /** The compaction loop of `revoke`. */
    method RevokeRule(id: Str) returns (ok: bool)
      requires Valid()
      modifies this`count, rules
      ensures Valid()
      ensures ok <==> Edit(old(Model()), Revoke(id)).Some?
      ensures Model() == if ok then Edit(old(Model()), Revoke(id)).value else old(Model())
    {
      ok := CheckId(id);
      if !ok { return; }
      ghost var all := Model().rules;
      var w := 0;
      for r := 0 to count
        invariant 0 <= w <= r && count == |all|
        invariant rules[..w] == Without(all[..r], id)
        invariant forall k :: r <= k < count ==> rules[k] == all[k]
      {
        assert all[..r + 1][..r] == all[..r];
        if rules[r].id != id {
          ghost var kept := rules[..w];
          rules[w] := rules[r];
          w := w + 1;
          assert rules[..w] == kept + [all[r]];
        }
      }
      assert all[..count] == all;
      count := w;
    }
  }

  /** The line `build_ruleset` prints for one token, through its 512-byte buffer. */
  method ItemLine(item: Str, title: Str) returns (line: Str)
    requires |item| <= 255 && |title| <= 64
    ensures line == RuleLine(ItemRule(item, title))
  {
    IndexSpec(item, '/');
    var slash := Index(item, '/');
    var proto := if slash < 0 then [] else item[slash + 1..];
    var ports := if slash < 0 then item else item[..slash];
    line := "\t\t" + proto + " dport " + ports + " accept" + (" comment \"" + title + "\"") + "\n";
    ItemLineFits(proto, ports, title);
    ShortEnough(line);
    line := Snprintf(line, LINE);
  }

  /** What is still to be emitted once the tokens of `rest` are. */
  lemma TokenStep(emitted: seq<ChainRule>, rest: Str, title: Str)
    ensures Strtok(rest, ',').0.None? ==> emitted + TokenRules(rest, title) == emitted
    ensures Strtok(rest, ',').0.Some? ==>
              emitted + TokenRules(rest, title) ==
              emitted + [ItemRule(Strtok(rest, ',').0.value, title)] + TokenRules(Strtok(rest, ',').1, title)
  {
  }

  method EmitItem(item: Str, title: Str, ghost chain: seq<ChainRule>, buf: Str) returns (text: Str)
    requires |item| <= 255 && |title| <= 64 && buf == LinesOf(chain)
    ensures text == LinesOf(chain + [ItemRule(item, title)])
  {
    var line := ItemLine(item, title);
    LinesSnoc(chain, ItemRule(item, title));
    text := buf + line;
  }

  /** The lines for one rule: the tokens of its port list, in order. */
  method RuleLines(r: Rule, ghost chain: seq<ChainRule>, buf: Str) returns (text: Str)
    requires ValidRule(r) && buf == LinesOf(chain)
    ensures text == LinesOf(chain + TokenRules(r.ports, r.title))
  {
    text := buf;
    var rest := Snprintf(r.ports, 256);
    ghost var emitted := chain;
    while true
      invariant emitted + TokenRules(rest, r.title) == chain + TokenRules(r.ports, r.title)
      invariant text == LinesOf(emitted) && |rest| <= 255
      decreases |rest|
    {
      StrtokShrinks(rest, ',');
      TokenFits(rest, ',');
      TokenStep(emitted, rest, r.title);
      var (token, next) := Strtok(rest, ',');
      if token.None? { break; }
      text := EmitItem(token.value, r.title, emitted, text);
      emitted := emitted + [ItemRule(token.value, r.title)];
      rest := next;
    }
  }

  lemma TokenFits(s: Str, c: char)
    ensures Strtok(s, c).0.Some? ==> |Strtok(s, c).0.value| <= |s|
  {
    SkipShrinks(s, c);
    IndexSpec(SkipLeading(s, c), c);
  }

  lemma RuleStep(st: State, chain: seq<ChainRule>, i: nat)
    requires i < |st.rules|
    ensures var r := st.rules[i];
            chain + RuleChain(st.publicProfile, st.rules[i..]) ==
            (if Admitted(st.publicProfile, r) then chain + TokenRules(r.ports, r.title) else chain)
            + RuleChain(st.publicProfile, st.rules[i + 1..])
  {
    assert st.rules[i..][1..] == st.rules[i + 1..];
  }

  /** `build_ruleset`. */
  method BuildRuleset(t: Table) returns (buf: Str)
    requires t.Valid() && ValidState(t.Model())
    ensures buf == RulesetText(t.Model())
  {
    buf := RESET;
    if !t.enabled {
      assert RESET + [] == RESET;
      return;
    }
    var body := BuildChain(t);
    buf := buf + (OPEN + body + CLOSE);
  }

  method BuildChain(t: Table) returns (body: Str)
    requires t.Valid() && ValidState(t.Model())
    ensures body == LinesOf(Chain(t.Model()))
  {
    ghost var st := t.Model();
    ghost var chain: seq<ChainRule>;
    body, chain := EmitFixed(t.publicProfile);
    assert st.rules[0..] == st.rules;
    for i := 0 to t.count
      invariant body == LinesOf(chain)
      invariant chain + RuleChain(st.publicProfile, st.rules[i..]) == Chain(st)
    {
      var r := t.rules[i];
      assert st.rules[i] == r;
      RuleStep(st, chain, i);
      if !(t.publicProfile && !r.publicToo) {
        body := RuleLines(r, chain, body);
        chain := chain + TokenRules(r.ports, r.title);
      }
    }
    assert st.rules[t.count..] == [];
    assert chain + [] == chain;
  }

  method EmitFixed(publicProfile: bool) returns (body: Str, ghost chain: seq<ChainRule>)
    ensures chain == FIXED + (if publicProfile then [] else [MDNS])
    ensures body == LinesOf(chain)
  {
    body, chain := [], [];
    for i := 0 to 6
      invariant chain == FIXED[..i] && body == LinesOf(chain)
    {
      LinesSnoc(chain, FIXED[i]);
      assert FIXED[..i + 1] == FIXED[..i] + [FIXED[i]];
      body := body + RuleLine(FIXED[i]);
      chain := chain + [FIXED[i]];
    }
    assert FIXED[..6] == FIXED;
    if !publicProfile {
      LinesSnoc(chain, MDNS);
      body := body + RuleLine(MDNS);
      chain := chain + [MDNS];
    } else {
      assert FIXED + [] == FIXED;
    }
  }
}
