/** The part of nft that the helper speaks: lines of words, commands that edit tables, rules
    that test packets. Nothing here is taken from what the helper prints. */
module FirewallNft {
  import opened Basics
  import opened CText
  import opened FirewallPorts
  import opened FirewallRuleset

  // ---------------------------------------------------------------- words and lines

  datatype Word = Bare(text: Str) | Quoted(text: Str)

  /** The words of a line, one space apart; a quoted word ends at the next quote. */
  function Words(s: Str): Option<seq<Word>>
    decreases |s|, 1
  {
    if s == [] then None
    else if s[0] == '"' then
      IndexSpec(s[1..], '"');
      var quote := Index(s[1..], '"');
      if quote < 0 then None else After(Quoted(s[1..][..quote]), s[1..][quote + 1..])
    else
      IndexSpec(s, ' ');
      var space := Index(s, ' ');
      if space < 0 then Some([Bare(s)]) else After(Bare(s[..space]), s[space..])
  }

  /** A word, and the words behind the space that follows it. */
  function After(w: Word, rest: Str): Option<seq<Word>>
    decreases |rest|, 0
  {
    if rest == [] then Some([w])
    else if rest[0] != ' ' then None
    else
      match Words(rest[1..])
      case Some(ws) => Some([w] + ws)
      case None => None
  }

  /** The words of each line; every line ends in a newline and may be indented by tabs. */
  function Lines(text: Str): Option<seq<seq<Word>>>
    decreases |text|
  {
    if text == [] then Some([])
    else
      IndexSpec(text, '\n');
      var end := Index(text, '\n');
      if end < 0 then None
      else
        var line, rest := Words(SkipLeading(text[..end], '\t')), Lines(text[end + 1..]);
        if line.None? || rest.None? then None else Some([line.value] + rest.value)
  }

  // ---------------------------------------------------------------- rules

  datatype Test =
    | CtIs(states: seq<Str>)
    | InterfaceIs(name: Str)
    | ProtocolIn(names: seq<Str>)
    | PortIs(protocol: Str, ports: Str)

  datatype Statement = Statement(test: Test, accept: bool, comment: Option<Str>)

  function StateName(ct: CtState): Str {
    match ct
    case New => "new"
    case Established => "established"
    case Related => "related"
    case Invalid => "invalid"
    case Untracked => "untracked"
  }

  function ProtocolNames(l4: L4): seq<Str> {
    match l4
    case Tcp => ["tcp"]
    case Udp => ["udp"]
    case Icmp => ["icmp"]
    case IcmpV6 => ["ipv6-icmp"]
    case OtherL4 => []
  }

  predicate Holds(n: Numerals, t: Test, p: Packet) {
    match t
    case CtIs(states) => StateName(p.ct) in states
    case InterfaceIs(name) => p.iif == name
    case ProtocolIn(names) => exists s :: s in names && s in ProtocolNames(p.l4)
    case PortIs(protocol, ports) => protocol in ProtocolNames(p.l4) && PortsCover(n, ports, p.dport)
  }

  /** A word without the mark `c` it may end with. */
  function Unmarked(s: Str, c: char): Str { if s != [] && s[|s| - 1] == c then s[..|s| - 1] else s }

  /** The words of a set up to its closing brace, without their commas, and what follows. */
  function ReadSet(ws: seq<Word>): Option<(seq<Str>, seq<Word>)> {
    if ws == [] || ws[0].Quoted? then None
    else if ws[0].text == "}" then Some(([], ws[1..]))
    else
      match ReadSet(ws[1..])
      case Some((names, rest)) => Some(([Unmarked(ws[0].text, ',')] + names, rest))
      case None => None
  }

  /** What a rule tests, and the words behind it. */
  function ReadTest(ws: seq<Word>): Option<(Test, seq<Word>)> {
    if |ws| < 3 || ws[0].Quoted? then None
    else if ws[0] == Bare("ct") && ws[1] == Bare("state") && ws[2].Bare? then Some((CtIs(Pieces(ws[2].text)), ws[3..]))
    else if ws[0] == Bare("iifname") && ws[1].Quoted? then Some((InterfaceIs(ws[1].text), ws[2..]))
    else if ws[0] == Bare("meta") && ws[1] == Bare("l4proto") && ws[2] == Bare("{") then
      match ReadSet(ws[3..])
      case Some((names, rest)) => Some((ProtocolIn(names), rest))
      case None => None
    else if ValidProto(ws[0].text) && ws[1] == Bare("dport") && ws[2].Bare? then
      Some((PortIs(ws[0].text, ws[2].text), ws[3..]))
    else None
  }

  predicate IsVerdict(w: Word) { w == Bare("accept") || w == Bare("drop") }

  /** A test, a verdict and maybe a comment. */
  function ReadStatement(ws: seq<Word>): Option<Statement> {
    match ReadTest(ws)
    case None => None
    case Some((test, rest)) =>
      if |rest| == 1 && IsVerdict(rest[0]) then Some(Statement(test, rest[0] == Bare("accept"), None))
      else if |rest| == 3 && IsVerdict(rest[0]) && rest[1] == Bare("comment") && rest[2].Quoted? then
        Some(Statement(test, rest[0] == Bare("accept"), Some(rest[2].text)))
      else None
  }

  // ---------------------------------------------------------------- chains and tables

  datatype Hook = Hook(kind: Str, point: Str, priority: Str, accept: bool)

  datatype NftChain = NftChain(hook: Option<Hook>, rules: seq<Statement>)

  datatype TableName = TableName(family: Str, name: Str)

  type Tables = map<TableName, map<Str, NftChain>>

  /** The first matching rule decides, and the policy where none matches. */
  predicate Passes(n: Numerals, rules: seq<Statement>, policy: bool, p: Packet) {
    if rules == [] then policy
    else if Holds(n, rules[0].test, p) then rules[0].accept
    else Passes(n, rules[1..], policy, p)
  }

  /** `type <kind> hook <point> priority <priority>; policy <verdict>;` */
  function ReadHook(ws: seq<Word>): Option<Hook> {
    if |ws| != 8 || exists i :: 0 <= i < 8 && ws[i].Quoted? then None
    else if ws[2].text != "hook" || ws[4].text != "priority" || ws[6].text != "policy" then None
    else if Unmarked(ws[5].text, ';') == ws[5].text || Unmarked(ws[7].text, ';') == ws[7].text then None
    else if !IsVerdict(Bare(Unmarked(ws[7].text, ';'))) then None
    else Some(Hook(ws[1].text, ws[3].text, Unmarked(ws[5].text, ';'), Unmarked(ws[7].text, ';') == "accept"))
  }

  /** Where nft is in a text: between commands, in a table, or in a chain of it. */
  datatype Nft =
    | Outside(tables: Tables)
    | InTable(tables: Tables, table: TableName, chains: map<Str, NftChain>)
    | InChain(tables: Tables, table: TableName, chains: map<Str, NftChain>, chain: Str, body: NftChain)

  function ChainsOf(tables: Tables, t: TableName): map<Str, NftChain> { if t in tables then tables[t] else map[] }

  predicate NamesTable(ws: seq<Word>) { |ws| >= 3 && ws[0] == Bare("table") && ws[1].Bare? && ws[2].Bare? }

  function TableNamed(ws: seq<Word>): TableName
    requires |ws| >= 3
  {
    TableName(ws[1].text, ws[2].text)
  }

  /** A command between tables: add one, open one, or delete one that is there. */
  function Command(tables: Tables, ws: seq<Word>): Option<Nft> {
    if NamesTable(ws) && |ws| == 3 then
      Some(Outside(tables[TableNamed(ws) := ChainsOf(tables, TableNamed(ws))]))
    else if NamesTable(ws) && |ws| == 4 && ws[3] == Bare("{") then
      Some(InTable(tables, TableNamed(ws), ChainsOf(tables, TableNamed(ws))))
    else if |ws| == 4 && ws[0] == Bare("delete") && NamesTable(ws[1..]) && TableNamed(ws[1..]) in tables then
      Some(Outside(tables - {TableNamed(ws[1..])}))
    else None
  }

  function InTableLine(s: Nft, ws: seq<Word>): Option<Nft>
    requires s.InTable?
  {
    if ws == [Bare("}")] then Some(Outside(s.tables[s.table := s.chains]))
    else if |ws| == 3 && ws[0] == Bare("chain") && ws[1].Bare? && ws[2] == Bare("{") then
      var body := if ws[1].text in s.chains then s.chains[ws[1].text] else NftChain(None, []);
      Some(InChain(s.tables, s.table, s.chains, ws[1].text, body))
    else None
  }

  function InChainLine(s: Nft, ws: seq<Word>): Option<Nft>
    requires s.InChain?
  {
    if ws == [Bare("}")] then Some(InTable(s.tables, s.table, s.chains[s.chain := s.body]))
    else if ws != [] && ws[0] == Bare("type") then
      if s.body.hook.None? && ReadHook(ws).Some? then Some(s.(body := s.body.(hook := ReadHook(ws)))) else None
    else
      match ReadStatement(ws)
      case Some(statement) => Some(s.(body := s.body.(rules := s.body.rules + [statement])))
      case None => None
  }

  function Line(s: Nft, ws: seq<Word>): Option<Nft> {
    match s
    case Outside(tables) => Command(tables, ws)
    case InTable(_, _, _) => InTableLine(s, ws)
    case InChain(_, _, _, _, _) => InChainLine(s, ws)
  }

  function RunLines(s: Nft, lines: seq<seq<Word>>): Option<Nft>
    decreases |lines|
  {
    if lines == [] then Some(s)
    else
      match Line(s, lines[0])
      case Some(next) => RunLines(next, lines[1..])
      case None => None
  }

  /** The tables after a text that nft takes whole, or none when it refuses it. */
  function Execute(tables: Tables, text: Str): Option<Tables> {
    match Lines(text)
    case None => None
    case Some(lines) =>
      match RunLines(Outside(tables), lines)
      case Some(Outside(after)) => Some(after)
      case _ => None
  }
}
