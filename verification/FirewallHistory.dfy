/** The state file after any calls, from the calls alone. */
module FirewallHistory {
  import opened Basics
  import opened CText
  import opened FirewallPorts
  import opened FirewallFile
  import opened FirewallCommands

  /** What the last saved enable or disable said; off at first. */
  function EnabledIn(calls: seq<Call>): bool {
    if calls == [] then false
    else
      var before, call := calls[..|calls| - 1], calls[|calls| - 1];
      if call.saved && call.cmd.Enable? then true
      else if call.saved && call.cmd.Disable? then false
      else EnabledIn(before)
  }

  /** Whether the last saved profile was the public one; home at first. */
  function PublicIn(calls: seq<Call>): bool {
    if calls == [] then false
    else
      var before, call := calls[..|calls| - 1], calls[|calls| - 1];
      if call.saved && call.cmd == Profile("public") then true
      else if call.saved && call.cmd == Profile("home") then false
      else PublicIn(before)
  }

  predicate ValidAllow(cmd: Command)
    requires cmd.Allow?
  {
    ValidId(cmd.id) && (cmd.pub == "0" || cmd.pub == "1") && ValidPorts(cmd.ports) && ValidLabel(cmd.title)
  }

  /** The rule the last saved allow or revoke of this id left; a new id needs one of 64 places. */
  function RuleIn(calls: seq<Call>, id: Str): Option<Rule> {
    if calls == [] then None
    else
      var before, call := calls[..|calls| - 1], calls[|calls| - 1];
      match call.cmd
      case Allow(i, pub, ports, title) =>
        if call.saved && i == id && ValidAllow(call.cmd) && (RuleIn(before, id).Some? || |TableAfter(before).rules| < 64) then
          Some(Rule(id, pub == "1", ports, title))
        else RuleIn(before, id)
      case Revoke(i) => if call.saved && i == id then None else RuleIn(before, id)
      case _ => RuleIn(before, id)
  }

  lemma {:induction false} FoundIsThere(rules: seq<Rule>, id: Str)
    ensures Find(rules, id).Some? ==> Find(rules, id).value in rules && Find(rules, id).value.id == id
    decreases |rules|
  {
    if rules != [] {
      FoundIsThere(rules[1..], id);
    }
  }

  lemma AllowBinds(st: State, cmd: Command, id: Str)
    requires Sound(st) && cmd.Allow?
    ensures Edit(st, cmd).Some? <==> ValidAllow(cmd) && (Find(st.rules, cmd.id).Some? || |st.rules| < 64)
    ensures Edit(st, cmd).Some? ==>
              && Edit(st, cmd).value == st.(rules := Edit(st, cmd).value.rules)
              && Find(Edit(st, cmd).value.rules, id) ==
                 (if id == cmd.id then Some(Rule(id, cmd.pub == "1", cmd.ports, cmd.title)) else Find(st.rules, id))
  {
    var r := Rule(cmd.id, cmd.pub == "1", cmd.ports, cmd.title);
    PutIsInsertOrReplace(st.rules, r);
    FindNone(st.rules, cmd.id);
  }

  lemma RevokeUnbinds(st: State, cmd: Command, id: Str)
    requires Sound(st) && cmd.Revoke?
    ensures Edit(st, cmd).Some? ==>
              && Edit(st, cmd).value == st.(rules := Edit(st, cmd).value.rules)
              && Find(Edit(st, cmd).value.rules, id) == (if id == cmd.id then None else Find(st.rules, id))
    ensures Edit(st, cmd).None? ==> Find(st.rules, cmd.id).None?
  {
    WithoutIsRemove(st.rules, cmd.id);
    FoundIsThere(st.rules, cmd.id);
  }

  /** After any calls, whether the firewall is on, its profile, and the rule of each id with its
      public flag are what the last saved command about them said. */
  lemma {:induction false} TableIsLastSaid(calls: seq<Call>, id: Str)
    ensures TableAfter(calls).enabled == EnabledIn(calls)
    ensures TableAfter(calls).publicProfile == PublicIn(calls)
    ensures Find(TableAfter(calls).rules, id) == RuleIn(calls, id)
    decreases |calls|
  {
    if calls != [] {
      var before, call := calls[..|calls| - 1], calls[|calls| - 1];
      TableIsLastSaid(before, id);
      HistoriesAreSound(before);
      match call.cmd
      case Allow(_, _, _, _) => AllowBinds(TableAfter(before), call.cmd, id);
      case Revoke(_) => RevokeUnbinds(TableAfter(before), call.cmd, id);
      case _ =>
    }
  }

  /** The file as its format strings have it: the two settings, then a line for each rule. */
  lemma SettingsPrinted(st: State)
    ensures Print(st) ==
            "enabled " + (if st.enabled then "1" else "0") + "\n" +
            "profile " + (if st.publicProfile then "public" else "home") + "\n" + PrintRules(st.rules)
  {
    Regrouped("enabled ", if st.enabled then "1" else "0", "\n", "profile ",
              if st.publicProfile then "public" else "home", PrintRules(st.rules));
  }

  lemma Regrouped(a: Str, b: Str, newline: Str, c: Str, d: Str, rest: Str)
    ensures (a + b) + newline + ((c + d) + newline + rest) == a + b + newline + c + d + newline + rest
  {
  }

  lemma RulePrinted(r: Rule)
    ensures RuleText(r) == "rule " + r.id + " " + (if r.publicToo then "1" else "0") + " " + r.ports + " " + r.title
  {
    Spaced("rule ", r.id, " ", if r.publicToo then "1" else "0", r.ports, r.title);
  }

  lemma Spaced(a: Str, b: Str, space: Str, c: Str, d: Str, e: Str)
    ensures a + (b + space + (c + space + (d + space + e))) == a + b + space + c + space + d + space + e
  {
  }

  // ---------------------------------------------------------------- any file

  /** The lines a file is read as. */
  function FileLines(chunks: seq<Str>): seq<Str> {
    if chunks == [] then [] else FileLines(chunks[..|chunks| - 1]) + [LineOf(chunks[|chunks| - 1])]
  }

  /** Up to 510 bytes and a newline are one line; a longer one is cut after 511 bytes. */
  lemma LongLineIsCut(line: Str, rest: Str)
    requires '\n' !in line
    ensures |line| <= 510 ==> Chunks(line + ['\n'] + rest) == [line + ['\n']] + Chunks(rest)
    ensures |line| >= 511 ==> Chunks(line + ['\n'] + rest) == [line[..511]] + Chunks(line[511..] + ['\n'] + rest)
  {
    var file := line + ['\n'] + rest;
    IndexAt(line, '\n', rest);
    if |line| <= 510 {
      assert file[..|line| + 1] == line + ['\n'] && file[|line| + 1..] == rest;
    } else {
      assert file[..511] == line[..511] && file[511..] == line[511..] + ['\n'] + rest;
    }
  }

  /** What the last line about the firewall says: only "1" is on. */
  function LastEnabled(lines: seq<Str>): bool {
    if lines == [] then false
    else if HasPrefix(lines[|lines| - 1], "enabled ") then lines[|lines| - 1] == "enabled 1"
    else LastEnabled(lines[..|lines| - 1])
  }

  /** What the last line about the profile says: only "public" is public. */
  function LastPublic(lines: seq<Str>): bool {
    if lines == [] then false
    else if HasPrefix(lines[|lines| - 1], "profile ") then lines[|lines| - 1] == "profile public"
    else LastPublic(lines[..|lines| - 1])
  }

  /** The rules that can be read, in order. */
  function ReadableRules(lines: seq<Str>): seq<Rule> {
    if lines == [] then []
    else
      var before, line := ReadableRules(lines[..|lines| - 1]), lines[|lines| - 1];
      if HasPrefix(line, "rule ") && ParseRule(line[5..]).Some? then before + [ParseRule(line[5..]).value] else before
  }

  function First64(rules: seq<Rule>): seq<Rule> { if |rules| <= 64 then rules else rules[..64] }

  lemma {:induction false} ParseChunksSnoc(st: State, chunks: seq<Str>)
    requires chunks != []
    ensures ParseChunks(st, chunks) == ParseLine(ParseChunks(st, chunks[..|chunks| - 1]), LineOf(chunks[|chunks| - 1]))
    decreases |chunks|
  {
    if |chunks| > 1 {
      ParseChunksSnoc(ParseLine(st, LineOf(chunks[0])), chunks[1..]);
      assert chunks[1..][..|chunks| - 2] == chunks[..|chunks| - 1][1..];
    } else {
      assert chunks[1..] == [] && chunks[..0] == [];
    }
  }

  lemma PrefixIs(line: Str, prefix: Str, rest: Str)
    requires HasPrefix(line, prefix)
    ensures line[|prefix|..] == rest <==> line == prefix + rest
  {
    assert line == line[..|prefix|] + line[|prefix|..];
  }

  lemma PrefixesApart(line: Str)
    ensures !(HasPrefix(line, "enabled ") && HasPrefix(line, "profile "))
    ensures !(HasPrefix(line, "enabled ") && HasPrefix(line, "rule "))
    ensures !(HasPrefix(line, "profile ") && HasPrefix(line, "rule "))
  {
    PrefixHead(line, "enabled ");
    PrefixHead(line, "profile ");
    PrefixHead(line, "rule ");
  }

  lemma LineSays(st: State, line: Str)
    ensures var st' := ParseLine(st, line);
            && st'.enabled == (if HasPrefix(line, "enabled ") then line == "enabled 1" else st.enabled)
            && st'.publicProfile == (if HasPrefix(line, "profile ") then line == "profile public" else st.publicProfile)
            && st'.rules == (if HasPrefix(line, "rule ") && |st.rules| < 64 && ParseRule(line[5..]).Some? then
                               st.rules + [ParseRule(line[5..]).value] else st.rules)
  {
    PrefixesApart(line);
    if HasPrefix(line, "enabled ") {
      PrefixIs(line, "enabled ", "1");
      assert "enabled " + "1" == "enabled 1";
    }
    if HasPrefix(line, "profile ") {
      PrefixIs(line, "profile ", "public");
      assert "profile " + "public" == "profile public";
    }
  }

  lemma FileLinesSnoc(chunks: seq<Str>)
    requires chunks != []
    ensures FileLines(chunks)[..|FileLines(chunks)| - 1] == FileLines(chunks[..|chunks| - 1])
    ensures FileLines(chunks)[|FileLines(chunks)| - 1] == LineOf(chunks[|chunks| - 1])
  {
  }

  /** Whatever lines are read, the last one about each setting decides it, and the first 64 rules
      that can be read are the table. */
  lemma {:induction false} LinesDecide(chunks: seq<Str>)
    ensures var st, lines := ParseChunks(EMPTY, chunks), FileLines(chunks);
            st == State(LastEnabled(lines), LastPublic(lines), First64(ReadableRules(lines)))
    decreases |chunks|
  {
    if chunks != [] {
      var before := chunks[..|chunks| - 1];
      LinesDecide(before);
      ParseChunksSnoc(EMPTY, chunks);
      FileLinesSnoc(chunks);
      LineSays(ParseChunks(EMPTY, before), LineOf(chunks[|chunks| - 1]));
    }
  }

  /** Any file at all: what is loaded from it. */
  lemma AnyFileIsRead(text: Str)
    ensures var lines := FileLines(Chunks(text));
            Load(Some(text)) == State(LastEnabled(lines), LastPublic(lines), First64(ReadableRules(lines)))
  {
    LinesDecide(Chunks(text));
  }

  /** A rule line as it is read: three words and the rest, each of which must be valid; only the
      flag "1" makes a rule public too. */
  lemma RuleLineIsRead(id: Str, pub: Str, ports: Str, title: Str)
    requires id != [] && pub != [] && ports != [] && ' ' !in id && ' ' !in pub && ' ' !in ports
    ensures ParseRule(id + [' '] + (pub + [' '] + (ports + [' '] + title))) ==
            if ValidId(id) && ValidPorts(ports) && ValidLabel(title) then Some(Rule(id, pub == "1", ports, title)) else None
  {
    StrtokAt(id, ' ', pub + [' '] + (ports + [' '] + title));
    StrtokAt(pub, ' ', ports + [' '] + title);
    StrtokAt(ports, ' ', title);
  }
}
