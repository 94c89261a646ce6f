/** The firewall state file: what is printed, how it is read back, and that the two agree. */
module FirewallFile {
  import opened Basics
  import opened CText
  import opened FirewallPorts

  const MAX_RULES := 64
  const LINE := 512

  datatype Rule = Rule(id: Str, publicToo: bool, ports: Str, title: Str)

  datatype State = State(enabled: bool, publicProfile: bool, rules: seq<Rule>)

  const EMPTY := State(false, false, [])

  predicate ValidRule(r: Rule) { ValidId(r.id) && ValidPorts(r.ports) && ValidLabel(r.title) }

  ghost predicate ValidState(st: State) {
    |st.rules| <= MAX_RULES && forall i :: 0 <= i < |st.rules| ==> ValidRule(st.rules[i])
  }

  // ---------------------------------------------------------------- printing

  function Bit(b: bool): Str { if b then "1" else "0" }

  function ProfileName(publicProfile: bool): Str { if publicProfile then "public" else "home" }

  function RuleText(r: Rule): Str {
    "rule " + (r.id + [' '] + (Bit(r.publicToo) + [' '] + (r.ports + [' '] + r.title)))
  }

  function PrintRules(rules: seq<Rule>): Str {
    if rules == [] then [] else RuleText(rules[0]) + ['\n'] + PrintRules(rules[1..])
  }

  /** What `save_state` writes. */
  function Print(st: State): Str {
    ("enabled " + Bit(st.enabled)) + ['\n'] + (("profile " + ProfileName(st.publicProfile)) + ['\n'] + PrintRules(st.rules))
  }

  // ---------------------------------------------------------------- reading

  /** How much one `fgets` takes: up to and including a newline, at most 511 bytes. */
  function ChunkLength(file: Str): (n: nat)
    ensures n <= |file| && (file != [] ==> n > 0)
  {
    IndexSpec(file, '\n');
    var newline := Index(file, '\n');
    var whole := if newline < 0 then |file| else newline + 1;
    if whole < LINE then whole else LINE - 1
  }

  function Chunks(file: Str): seq<Str>
    decreases |file|
  {
    if file == [] then [] else [file[..ChunkLength(file)]] + Chunks(file[ChunkLength(file)..])
  }

  /** The C string left in the line buffer once the newline is cut: it also ends at a NUL. */
  function LineOf(chunk: Str): Str
    decreases |chunk|
  {
    if chunk == [] || chunk[0] == '\n' || chunk[0] == '\0' then [] else [chunk[0]] + LineOf(chunk[1..])
  }

  function ParseRule(text: Str): Option<Rule> {
    var (id, rest1) := Strtok(text, ' ');
    var (pub, rest2) := Strtok(rest1, ' ');
    var (ports, title) := Strtok(rest2, ' ');
    if id.Some? && pub.Some? && ports.Some? && ValidId(id.value) && ValidPorts(ports.value) && ValidLabel(title) then
      Some(Rule(id.value, pub.value == "1", ports.value, title))
    else None
  }

  function ParseLine(st: State, line: Str): State {
    if HasPrefix(line, "enabled ") then st.(enabled := line[8..] == "1")
    else if HasPrefix(line, "profile ") then st.(publicProfile := line[8..] == "public")
    else if HasPrefix(line, "rule ") && |st.rules| < MAX_RULES then
      match ParseRule(line[5..])
      case Some(r) => st.(rules := st.rules + [r])
      case None => st
    else st
  }

  function ParseChunks(st: State, chunks: seq<Str>): State
    decreases |chunks|
  {
    if chunks == [] then st else ParseChunks(ParseLine(st, LineOf(chunks[0])), chunks[1..])
  }

  /** What `load_state` makes of a file; no file reads as the empty state. */
  function Load(file: Option<Str>): State {
    match file
    case None => EMPTY
    case Some(text) => ParseChunks(EMPTY, Chunks(text))
  }

  // ---------------------------------------------------------------- reading is always valid

  lemma {:induction false} ParseChunksValid(st: State, chunks: seq<Str>)
    requires ValidState(st)
    ensures ValidState(ParseChunks(st, chunks))
    decreases |chunks|
  {
    if chunks != [] {
      ParseChunksValid(ParseLine(st, LineOf(chunks[0])), chunks[1..]);
    }
  }

  /** Whatever bytes the file holds, only valid rules are loaded, and at most 64. */
  lemma LoadIsValid(file: Option<Str>)
    ensures ValidState(Load(file)) && |Load(file).rules| <= 64
  {
    if file.Some? {
      ParseChunksValid(EMPTY, Chunks(file.value));
    }
  }

  // ---------------------------------------------------------------- round trip

  ghost predicate Plain(line: Str) {
    |line| + 1 < LINE && forall c :: c in line ==> c != '\n' && c != '\0'
  }

  lemma {:induction false} LineOfPlain(line: Str)
    requires forall i :: 0 <= i < |line| ==> line[i] != '\n' && line[i] != '\0'
    ensures LineOf(line + ['\n']) == line
    decreases |line|
  {
    if line != [] {
      assert (line + ['\n'])[1..] == line[1..] + ['\n'];
      LineOfPlain(line[1..]);
    }
  }

  /** A short line without control bytes is read as it was written. */
  lemma ReadsLine(st: State, line: Str, rest: Str)
    requires Plain(line)
    ensures ParseChunks(st, Chunks(line + ['\n'] + rest)) == ParseChunks(ParseLine(st, line), Chunks(rest))
  {
    var file := line + ['\n'] + rest;
    IndexAt(line, '\n', rest);
    assert ChunkLength(file) == |line| + 1;
    assert file[..|line| + 1] == line + ['\n'];
    assert file[|line| + 1..] == rest;
    assert forall i :: 0 <= i < |line| ==> line[i] in line;
    LineOfPlain(line);
    assert Chunks(file) == [line + ['\n']] + Chunks(rest);
    assert Chunks(file)[1..] == Chunks(rest);
  }

  lemma IdHasNoSpace(id: Str)
    requires ValidId(id)
    ensures forall c :: c in id ==> c != ' ' && c != '\n' && c != '\0'
  {
  }

  lemma RuleTextPlain(r: Rule)
    requires ValidRule(r)
    ensures Plain(RuleText(r))
  {
    PortsHaveNoSpace(r.ports);
    IdHasNoSpace(r.id);
    assert forall c :: c in r.title ==> LabelChar(c);
    assert forall c :: c in "rule " ==> c != '\n' && c != '\0';
    var t1 := r.ports + [' '] + r.title;
    assert forall c :: c in t1 ==> c != '\n' && c != '\0';
    var t2 := Bit(r.publicToo) + [' '] + t1;
    assert forall c :: c in t2 ==> c != '\n' && c != '\0';
    var t3 := r.id + [' '] + t2;
    assert forall c :: c in t3 ==> c != '\n' && c != '\0';
  }

  /** The three-token split leaves the label untouched, leading spaces included. */
  lemma ParsesRule(r: Rule)
    requires ValidRule(r)
    ensures ParseRule(RuleText(r)[5..]) == Some(r)
  {
    PortsHaveNoSpace(r.ports);
    IdHasNoSpace(r.id);
    var t1 := r.ports + [' '] + r.title;
    var t2 := Bit(r.publicToo) + [' '] + t1;
    assert RuleText(r)[5..] == r.id + [' '] + t2;
    StrtokAt(r.id, ' ', t2);
    StrtokAt(Bit(r.publicToo), ' ', t1);
    StrtokAt(r.ports, ' ', r.title);
  }

  lemma ReadsRule(st: State, r: Rule)
    requires ValidRule(r) && |st.rules| < MAX_RULES
    ensures ParseLine(st, RuleText(r)) == st.(rules := st.rules + [r])
  {
    ParsesRule(r);
    var line := RuleText(r);
    PrefixHead(line, "enabled ");
    PrefixHead(line, "profile ");
    assert line[..5] == "rule ";
  }

  lemma {:induction false} ReadsRules(st: State, rules: seq<Rule>)
    requires |st.rules| + |rules| <= MAX_RULES
    requires forall i :: 0 <= i < |rules| ==> ValidRule(rules[i])
    ensures ParseChunks(st, Chunks(PrintRules(rules))) == st.(rules := st.rules + rules)
    decreases |rules|
  {
    if rules == [] {
      assert st.rules + rules == st.rules;
    } else {
      var r, rest := rules[0], rules[1..];
      calc {
        ParseChunks(st, Chunks(PrintRules(rules)));
        { RuleTextPlain(r); ReadsLine(st, RuleText(r), PrintRules(rest)); }
        ParseChunks(ParseLine(st, RuleText(r)), Chunks(PrintRules(rest)));
        { ReadsRule(st, r); }
        ParseChunks(st.(rules := st.rules + [r]), Chunks(PrintRules(rest)));
        { ReadsRules(st.(rules := st.rules + [r]), rest); }
        st.(rules := st.rules + [r] + rest);
        { assert st.rules + [r] + rest == st.rules + rules; }
        st.(rules := st.rules + rules);
      }
    }
  }

  lemma ReadsEnabled(st: State, enabled: bool, rest: Str)
    ensures ParseChunks(st, Chunks("enabled " + Bit(enabled) + ['\n'] + rest))
         == ParseChunks(st.(enabled := enabled), Chunks(rest))
  {
    var line := "enabled " + Bit(enabled);
    assert line[..8] == "enabled " && line[8..] == Bit(enabled);
    ReadsLine(st, line, rest);
  }

  lemma ReadsProfile(st: State, publicProfile: bool, rest: Str)
    ensures ParseChunks(st, Chunks("profile " + ProfileName(publicProfile) + ['\n'] + rest))
         == ParseChunks(st.(publicProfile := publicProfile), Chunks(rest))
  {
    var line := "profile " + ProfileName(publicProfile);
    assert line[..8] == "profile " && line[8..] == ProfileName(publicProfile);
    PrefixHead(line, "enabled ");
    ReadsLine(st, line, rest);
  }

  /** For every valid state, loading what was saved returns exactly that state. */
  lemma StateFileRoundTrip(st: State)
    requires ValidState(st)
    ensures Load(Some(Print(st))) == st
  {
    var rest := "profile " + ProfileName(st.publicProfile) + ['\n'] + PrintRules(st.rules);
    ReadsEnabled(EMPTY, st.enabled, rest);
    var s1 := EMPTY.(enabled := st.enabled);
    ReadsProfile(s1, st.publicProfile, PrintRules(st.rules));
    ReadsRules(s1.(publicProfile := st.publicProfile), st.rules);
    assert [] + st.rules == st.rules;
  }
}
