/** The ruleset text, as nft reads it, is the policy. */
module FirewallText {
  import opened Basics
  import opened CText
  import opened FirewallPorts
  import opened FirewallFile
  import opened FirewallRuleset
  import opened FirewallTable
  import opened FirewallNft

  // ---------------------------------------------------------------- words written and read

  function WordText(w: Word): Str { if w.Bare? then w.text else ['"'] + w.text + ['"'] }

  function Sentence(ws: seq<Word>): Str
    requires ws != []
  {
    if |ws| == 1 then WordText(ws[0]) else WordText(ws[0]) + [' '] + Sentence(ws[1..])
  }

  /** A word that cannot be mistaken for the text around it. */
  predicate Plain(w: Word) {
    && '\n' !in w.text
    && (w.Quoted? ==> '"' !in w.text)
    && (w.Bare? ==> w.text != [] && ' ' !in w.text && w.text[0] != '"' && w.text[0] != '\t')
  }

  predicate AllPlain(ws: seq<Word>) { ws != [] && All(ws, Plain) }

  lemma QuotedReads(text: Str, rest: Str)
    requires '"' !in text
    ensures Words(WordText(Quoted(text)) + rest) == After(Quoted(text), rest)
  {
    var s := WordText(Quoted(text)) + rest;
    assert s[1..] == text + ['"'] + rest;
    IndexAt(text, '"', rest);
  }

  lemma BareReads(text: Str, rest: Str)
    requires Plain(Bare(text)) && (rest == [] || rest[0] == ' ')
    ensures Words(text + rest) == After(Bare(text), rest)
  {
    var s := text + rest;
    assert s[0] == text[0];
    if rest == [] {
      assert s == text;
      IndexSpec(s, ' ');
    } else {
      assert s == text + [' '] + rest[1..];
      IndexAt(text, ' ', rest[1..]);
      assert s[|text|..] == rest;
    }
  }

  lemma WordReads(w: Word, rest: Str)
    requires Plain(w) && (rest == [] || rest[0] == ' ')
    ensures Words(WordText(w) + rest) == After(w, rest)
  {
    if w.Bare? {
      BareReads(w.text, rest);
    } else {
      QuotedReads(w.text, rest);
    }
  }

  /** A sentence reads back as its words. */
  lemma {:induction false} SentenceReads(ws: seq<Word>)
    requires AllPlain(ws)
    ensures Words(Sentence(ws)) == Some(ws)
    decreases |ws|
  {
    if |ws| == 1 {
      WordReads(ws[0], []);
      assert WordText(ws[0]) + [] == WordText(ws[0]);
      assert ws == [ws[0]];
    } else {
      var more := [' '] + Sentence(ws[1..]);
      SentenceReads(ws[1..]);
      WordReads(ws[0], more);
      assert WordText(ws[0]) + [' '] + Sentence(ws[1..]) == WordText(ws[0]) + more;
      assert more[1..] == Sentence(ws[1..]);
      assert [ws[0]] + ws[1..] == ws;
    }
  }

  lemma {:induction false} SentenceIsOneLine(ws: seq<Word>)
    requires AllPlain(ws)
    ensures '\n' !in Sentence(ws) && Sentence(ws) != [] && Sentence(ws)[0] != '\t'
    decreases |ws|
  {
    if |ws| > 1 {
      SentenceIsOneLine(ws[1..]);
    }
  }

  /** `line` is a line that says `ws`, whatever follows it. */
  ghost predicate Says(line: Str, ws: seq<Word>) {
    exists depth: nat :: AllPlain(ws) && line == Tabs(depth) + Sentence(ws) + ['\n']
  }

  function Tabs(depth: nat): Str { if depth == 0 then [] else ['\t'] + Tabs(depth - 1) }

  lemma {:induction false} TabsSkipped(depth: nat, s: Str)
    requires s != [] && s[0] != '\t'
    ensures SkipLeading(Tabs(depth) + s, '\t') == s
    ensures '\n' !in Tabs(depth)
  {
    if depth == 0 {
      assert [] + s == s;
    } else {
      TabsSkipped(depth - 1, s);
      assert (Tabs(depth) + s)[1..] == Tabs(depth - 1) + s;
    }
  }

  lemma {:induction false} LineReads(line: Str, ws: seq<Word>, rest: Str, more: seq<seq<Word>>)
    requires Says(line, ws) && Lines(rest) == Some(more)
    ensures Lines(line + rest) == Some([ws] + more)
  {
    var depth: nat :| AllPlain(ws) && line == Tabs(depth) + Sentence(ws) + ['\n'];
    SentenceIsOneLine(ws);
    SentenceReads(ws);
    TabsSkipped(depth, Sentence(ws));
    var body := Tabs(depth) + Sentence(ws);
    assert line + rest == body + ['\n'] + rest;
    IndexAt(body, '\n', rest);
  }

  /** Rules printed one after the other, each saying its words, before a text that reads. */
  lemma {:induction false} PrintedReads(write: ChainRule -> Str, words: ChainRule -> seq<Word>, chain: seq<ChainRule>, tail: Str, more: seq<seq<Word>>)
    requires forall i :: 0 <= i < |chain| ==> Says(write(chain[i]), words(chain[i]))
    requires Lines(tail) == Some(more)
    ensures Lines(PrintAll(write, chain) + tail) == Some(Each(words, chain) + more)
    decreases |chain|
  {
    if chain == [] {
      EmptyConcat(tail);
      EmptyConcat(more);
    } else {
      var init, r := chain[..|chain| - 1], chain[|chain| - 1];
      LineReads(write(r), words(r), tail, more);
      PrintedReads(write, words, init, write(r) + tail, [words(r)] + more);
      ConcatAssoc(PrintAll(write, init), write(r), tail);
      ConcatAssoc(Each(words, init), [words(r)], more);
    }
  }

  function Each<T, U>(f: T -> U, s: seq<T>): seq<U> {
    if s == [] then [] else Each(f, s[..|s| - 1]) + [f(s[|s| - 1])]
  }

  lemma TwoMore<T>(a: T, b: T, more: seq<T>)
    ensures [a] + ([b] + more) == [a, b] + more
  {
  }

  lemma ThreeMore<T>(a: T, b: T, c: T, more: seq<T>)
    ensures [a] + ([b, c] + more) == [a, b, c] + more
  {
  }

  lemma EmptyConcat<T>(s: seq<T>)
    ensures [] + s == s
  {
  }

  // ---------------------------------------------------------------- one rule

  /** A rule whose parts cannot be mistaken for the text around them. */
  ghost predicate Plainly(r: ChainRule) { r.Dport? ==> PlainParts(r.proto, r.ports, r.comment) }

  ghost predicate PlainParts(proto: Str, ports: Str, comment: Option<Str>) {
    && ValidProto(proto) && Plain(Bare(ports)) && (comment.Some? ==> Plain(Quoted(comment.value)))
  }

  /** What a rule is in nft's terms. */
  function StatementOf(r: ChainRule): Statement {
    match r
    case AcceptTracked => Statement(CtIs(["established", "related"]), true, None)
    case DropInvalid => Statement(CtIs(["invalid"]), false, None)
    case AcceptLoopback => Statement(InterfaceIs("lo"), true, None)
    case AcceptIcmp => Statement(ProtocolIn(["icmp", "ipv6-icmp"]), true, None)
    case Dport(proto, ports, comment) => Statement(PortIs(proto, ports), true, comment)
  }

  function RuleWords(r: ChainRule): seq<Word> {
    match r
    case AcceptTracked => [Bare("ct"), Bare("state"), Bare("established,related"), Bare("accept")]
    case DropInvalid => [Bare("ct"), Bare("state"), Bare("invalid"), Bare("drop")]
    case AcceptLoopback => [Bare("iifname"), Quoted("lo"), Bare("accept")]
    case AcceptIcmp =>
      [Bare("meta"), Bare("l4proto"), Bare("{"), Bare("icmp,"), Bare("ipv6-icmp"), Bare("}"), Bare("accept")]
    case Dport(proto, ports, comment) => DportWords(proto, ports, comment)
  }

  function DportWords(proto: Str, ports: Str, comment: Option<Str>): seq<Word> {
    [Bare(proto), Bare("dport"), Bare(ports)] + VerdictWords(comment)
  }

  function VerdictWords(comment: Option<Str>): seq<Word> {
    if comment.Some? then [Bare("accept"), Bare("comment"), Quoted(comment.value)] else [Bare("accept")]
  }

  lemma NamesDiffer()
    ensures "established" != "invalid" && "related" != "invalid" && "new" != "invalid" && "untracked" != "invalid"
    ensures "new" != "established" && "new" != "related" && "untracked" != "established" && "untracked" != "related"
    ensures "tcp" != "udp" && "tcp" != "icmp" && "udp" != "icmp" && "ipv6-icmp" != "tcp" && "ipv6-icmp" != "udp"
  {
    assert "established"[0] == 'e' && "invalid"[0] == 'i' && "related"[0] == 'r' && "untracked"[0] == 'u';
  }

  /** A rule tests what its statement tests, and both decide alike. */
  lemma StatementMeansRule(n: Numerals, r: ChainRule, p: Packet)
    requires Plainly(r)
    ensures Holds(n, StatementOf(r).test, p) <==> Matches(n, r, p)
    ensures StatementOf(r).accept <==> !r.DropInvalid?
  {
    NamesDiffer();
    match r
    case AcceptTracked =>
    case DropInvalid =>
    case AcceptLoopback =>
    case AcceptIcmp =>
      var names := ["icmp", "ipv6-icmp"];
      assert names[0] in names && names[1] in names;
      forall s | s in names && s in ProtocolNames(p.l4) ensures p.l4 == Icmp || p.l4 == IcmpV6 {
      }
    case Dport(proto, ports, comment) =>
  }

  /** A chain of the statements passes what a chain of the rules accepts. */
  lemma {:induction false} StatementsMeanRules(n: Numerals, rules: seq<Statement>, chain: seq<ChainRule>, policy: bool, p: Packet)
    requires |rules| == |chain| && forall i :: 0 <= i < |chain| ==> rules[i] == StatementOf(chain[i]) && Plainly(chain[i])
    ensures Passes(n, rules, policy, p) <==> Accepts(n, chain, policy, p)
    decreases |chain|
  {
    if chain != [] {
      StatementMeansRule(n, chain[0], p);
      StatementsMeanRules(n, rules[1..], chain[1..], policy, p);
    }
  }

  // ---------------------------------------------------------------- the words of a line

  lemma Sentence1(a: Word)
    ensures Sentence([a]) == WordText(a)
  {
  }

  lemma SentenceCons(a: Word, rest: seq<Word>)
    requires rest != []
    ensures Sentence([a] + rest) == WordText(a) + [' '] + Sentence(rest)
  {
    assert ([a] + rest)[1..] == rest;
  }

  lemma Sentence2(a: Word, b: Word)
    ensures Sentence([a, b]) == WordText(a) + " " + WordText(b)
  {
    SentenceCons(a, [b]);
    assert [a] + [b] == [a, b];
  }

  lemma Spaced3(a: Str, b: Str, c: Str)
    ensures a + [' '] + (b + " " + c) == a + " " + b + " " + c
  {
  }

  lemma Spaced4(a: Str, b: Str, c: Str, d: Str)
    ensures a + [' '] + (b + " " + c + " " + d) == a + " " + b + " " + c + " " + d
  {
  }

  lemma OneMore<T>(a: T, b: T, c: T, d: T)
    ensures [a] + [b, c, d] == [a, b, c, d]
  {
  }

  lemma Sentence3(a: Word, b: Word, c: Word)
    ensures Sentence([a, b, c]) == WordText(a) + " " + WordText(b) + " " + WordText(c)
  {
    Sentence2(b, c);
    SentenceCons(a, [b, c]);
    assert [a] + [b, c] == [a, b, c];
    Spaced3(WordText(a), WordText(b), WordText(c));
  }

  lemma Sentence4(a: Word, b: Word, c: Word, d: Word)
    ensures Sentence([a, b, c, d]) == WordText(a) + " " + WordText(b) + " " + WordText(c) + " " + WordText(d)
  {
    Sentence3(b, c, d);
    SentenceCons(a, [b, c, d]);
    OneMore(a, b, c, d);
    Spaced4(WordText(a), WordText(b), WordText(c), WordText(d));
  }

  lemma {:induction false} SentenceJoin(xs: seq<Word>, ys: seq<Word>)
    requires xs != [] && ys != []
    ensures Sentence(xs + ys) == Sentence(xs) + [' '] + Sentence(ys)
    decreases |xs|
  {
    var x, rest := xs[0], xs[1..];
    assert xs + ys == [x] + (rest + ys);
    SentenceCons(x, rest + ys);
    if rest == [] {
      EmptyConcat(ys);
    } else {
      SentenceJoin(rest, ys);
      SpacedAssoc(WordText(x), Sentence(rest), Sentence(ys));
    }
  }

  lemma SpacedAssoc(a: Str, b: Str, c: Str)
    ensures a + [' '] + (b + [' '] + c) == a + [' '] + b + [' '] + c
  {
  }

  /** The start of a line, up to a space, and its end. */
  predicate Starts(depth: nat, head: Str, ws: seq<Word>) { AllPlain(ws) && head == Tabs(depth) + Sentence(ws) + [' '] }

  predicate Ends(tail: Str, ws: seq<Word>) { AllPlain(ws) && tail == Sentence(ws) + ['\n'] }

  lemma SaysJoin(depth: nat, head: Str, xs: seq<Word>, tail: Str, ys: seq<Word>)
    requires Starts(depth, head, xs) && Ends(tail, ys)
    ensures Says(head + tail, xs + ys)
  {
    SentenceJoin(xs, ys);
    AllPlainJoin(xs, ys);
    assert Tabs(depth) + Sentence(xs) + [' '] + (Sentence(ys) + ['\n']) ==
           Tabs(depth) + (Sentence(xs) + [' '] + Sentence(ys)) + ['\n'];
  }

  lemma AllPlainJoin(xs: seq<Word>, ys: seq<Word>)
    requires AllPlain(xs) && AllPlain(ys)
    ensures AllPlain(xs + ys)
  {
  }

  /** A text of graphic characters is a plain word. */
  predicate Graphic(s: Str) { |s| > 0 && forall i :: 0 <= i < |s| ==> s[i] > ' ' && s[i] != '"' }

  lemma GraphicIsPlain(s: Str)
    requires Graphic(s)
    ensures Plain(Bare(s)) && Plain(Quoted(s))
  {
  }

  predicate GraphicWords(ws: seq<Word>) { ws != [] && forall i :: 0 <= i < |ws| ==> Graphic(ws[i].text) }

  lemma WordsArePlain(ws: seq<Word>)
    requires GraphicWords(ws)
    ensures AllPlain(ws)
  {
    forall i | 0 <= i < |ws| ensures Plain(ws[i]) {
      GraphicIsPlain(ws[i].text);
    }
  }

  lemma TwoTabs()
    ensures Tabs(0) == "" && Tabs(1) == "\t" && Tabs(2) == "\t\t"
  {
    assert Tabs(1) == ['\t'] + Tabs(0) && Tabs(2) == ['\t'] + Tabs(1);
  }

  lemma SaysAt(depth: nat, line: Str, ws: seq<Word>)
    requires AllPlain(ws) && line == Tabs(depth) + Sentence(ws) + ['\n']
    ensures Says(line, ws)
  {
  }

  lemma Starts2(head: Str, a: Word, b: Word)
    requires Graphic(a.text) && Graphic(b.text) && head == "\t\t" + (WordText(a) + " " + WordText(b)) + [' ']
    ensures Starts(2, head, [a, b])
  {
    TwoTabs();
    Sentence2(a, b);
    WordsArePlain([a, b]);
  }

  lemma Ends2(tail: Str, a: Word, b: Word)
    requires Graphic(a.text) && Graphic(b.text) && tail == WordText(a) + " " + WordText(b) + ['\n']
    ensures Ends(tail, [a, b])
  {
    Sentence2(a, b);
    WordsArePlain([a, b]);
  }

  lemma Starts3(head: Str, a: Word, b: Word, c: Word)
    requires Graphic(a.text) && Graphic(b.text) && Graphic(c.text)
    requires head == "\t\t" + (WordText(a) + " " + WordText(b) + " " + WordText(c)) + [' ']
    ensures Starts(2, head, [a, b, c])
  {
    TwoTabs();
    Sentence3(a, b, c);
    WordsArePlain([a, b, c]);
  }

  lemma Starts4(head: Str, a: Word, b: Word, c: Word, d: Word)
    requires Graphic(a.text) && Graphic(b.text) && Graphic(c.text) && Graphic(d.text)
    requires head == "\t\t" + (WordText(a) + " " + WordText(b) + " " + WordText(c) + " " + WordText(d)) + [' ']
    ensures Starts(2, head, [a, b, c, d])
  {
    TwoTabs();
    Sentence4(a, b, c, d);
    WordsArePlain([a, b, c, d]);
  }

  lemma Ends4(tail: Str, a: Word, b: Word, c: Word, d: Word)
    requires Graphic(a.text) && Graphic(b.text) && Graphic(c.text) && Graphic(d.text)
    requires tail == WordText(a) + " " + WordText(b) + " " + WordText(c) + " " + WordText(d) + ['\n']
    ensures Ends(tail, [a, b, c, d])
  {
    Sentence4(a, b, c, d);
    WordsArePlain([a, b, c, d]);
  }

  lemma Says3And4(head: Str, a: Word, b: Word, c: Word, tail: Str, d: Word, e: Word, f: Word, g: Word)
    requires Starts(2, head, [a, b, c]) && Ends(tail, [d, e, f, g])
    ensures Says(head + tail, [a, b, c, d, e, f, g])
  {
    SaysJoin(2, head, [a, b, c], tail, [d, e, f, g]);
    assert [a, b, c] + [d, e, f, g] == [a, b, c, d, e, f, g];
  }

  lemma Says2And2(head: Str, a: Word, b: Word, tail: Str, c: Word, d: Word)
    requires Starts(2, head, [a, b]) && Ends(tail, [c, d])
    ensures Says(head + tail, [a, b, c, d])
  {
    SaysJoin(2, head, [a, b], tail, [c, d]);
    assert [a, b] + [c, d] == [a, b, c, d];
  }

  // ---------------------------------------------------------------- the lines of rules

  lemma CtStateStarts()
    ensures Starts(2, "\t\tct state ", [Bare("ct"), Bare("state")])
  {
    Starts2("\t\tct state ", Bare("ct"), Bare("state"));
  }

  lemma TrackedEnds()
    ensures Ends("established,related accept\n", [Bare("established,related"), Bare("accept")])
  {
    Ends2("established,related accept\n", Bare("established,related"), Bare("accept"));
  }

  lemma InvalidEnds()
    ensures Ends("invalid drop\n", [Bare("invalid"), Bare("drop")])
  {
    Ends2("invalid drop\n", Bare("invalid"), Bare("drop"));
  }

  lemma TrackedSays()
    ensures Says(RuleLine(AcceptTracked), RuleWords(AcceptTracked))
  {
    CtStateStarts();
    TrackedEnds();
    Says2And2("\t\tct state ", Bare("ct"), Bare("state"), "established,related accept\n", Bare("established,related"), Bare("accept"));
  }

  lemma InvalidSays()
    ensures Says(RuleLine(DropInvalid), RuleWords(DropInvalid))
  {
    CtStateStarts();
    InvalidEnds();
    Says2And2("\t\tct state ", Bare("ct"), Bare("state"), "invalid drop\n", Bare("invalid"), Bare("drop"));
  }

  lemma LoopbackStarts()
    ensures Starts(2, "\t\tiifname ", [Bare("iifname")])
  {
    TwoTabs();
    Sentence1(Bare("iifname"));
    WordsArePlain([Bare("iifname")]);
  }

  lemma LoopbackEnds()
    ensures Ends("\"lo\" accept\n", [Quoted("lo"), Bare("accept")])
  {
    Ends2("\"lo\" accept\n", Quoted("lo"), Bare("accept"));
  }

  lemma LoopbackSays()
    ensures Says(RuleLine(AcceptLoopback), RuleWords(AcceptLoopback))
  {
    LoopbackStarts();
    LoopbackEnds();
    SaysJoin(2, "\t\tiifname ", [Bare("iifname")], "\"lo\" accept\n", [Quoted("lo"), Bare("accept")]);
    assert [Bare("iifname")] + [Quoted("lo"), Bare("accept")] == [Bare("iifname"), Quoted("lo"), Bare("accept")];
  }

  lemma IcmpStarts()
    ensures Starts(2, "\t\tmeta l4proto { ", [Bare("meta"), Bare("l4proto"), Bare("{")])
  {
    Starts3("\t\tmeta l4proto { ", Bare("meta"), Bare("l4proto"), Bare("{"));
  }

  lemma IcmpWords()
    ensures Graphic("icmp,") && Graphic("ipv6-icmp") && Graphic("}") && Graphic("accept")
  {
  }

  lemma IcmpEnds()
    ensures Ends("icmp, ipv6-icmp } accept\n", [Bare("icmp,"), Bare("ipv6-icmp"), Bare("}"), Bare("accept")])
  {
    IcmpWords();
    assert "icmp, ipv6-icmp } accept\n" == "icmp," + " " + "ipv6-icmp" + " " + "}" + " " + "accept" + ['\n'];
    Ends4("icmp, ipv6-icmp } accept\n", Bare("icmp,"), Bare("ipv6-icmp"), Bare("}"), Bare("accept"));
  }

  lemma IcmpSays()
    ensures Says(RuleLine(AcceptIcmp), RuleWords(AcceptIcmp))
  {
    IcmpStarts();
    IcmpEnds();
    Says3And4("\t\tmeta l4proto { ", Bare("meta"), Bare("l4proto"), Bare("{"),
              "icmp, ipv6-icmp } accept\n", Bare("icmp,"), Bare("ipv6-icmp"), Bare("}"), Bare("accept"));
  }

  /** The end of a rule, from its verdict on. */
  function VerdictText(comment: Option<Str>): Str {
    (if comment.Some? then "accept" + " comment \"" + comment.value + "\"" else "accept") + "\n"
  }

  lemma CommentText(v: Str)
    ensures VerdictText(Some(v)) == "accept" + " " + "comment" + " " + WordText(Quoted(v)) + ['\n']
  {
    assert " comment \"" == " " + "comment" + " " + ['"'];
  }

  lemma VerdictEnds(comment: Option<Str>)
    requires comment.Some? ==> Plain(Quoted(comment.value))
    ensures Ends(VerdictText(comment), VerdictWords(comment))
  {
    GraphicIsPlain("accept");
    if comment.Some? {
      GraphicIsPlain("comment");
      CommentText(comment.value);
      Sentence3(Bare("accept"), Bare("comment"), Quoted(comment.value));
      AllPlain3(Bare("accept"), Bare("comment"), Quoted(comment.value));
    } else {
      Sentence1(Bare("accept"));
    }
  }

  lemma AllPlain3(a: Word, b: Word, c: Word)
    requires Plain(a) && Plain(b) && Plain(c)
    ensures AllPlain([a, b, c])
  {
  }

  lemma DportStarts(proto: Str, ports: Str)
    requires ValidProto(proto) && Plain(Bare(ports))
    ensures Starts(2, "\t\t" + (proto + " " + "dport" + " " + ports) + [' '], [Bare(proto), Bare("dport"), Bare(ports)])
  {
    TwoTabs();
    GraphicIsPlain(proto);
    GraphicIsPlain("dport");
    Sentence3(Bare(proto), Bare("dport"), Bare(ports));
    AllPlain3(Bare(proto), Bare("dport"), Bare(ports));
  }

  lemma DportLine(proto: Str, ports: Str, comment: Option<Str>)
    ensures RuleLine(Dport(proto, ports, comment)) == "\t\t" + (proto + " " + "dport" + " " + ports) + [' '] + VerdictText(comment)
  {
    var title := if comment.Some? then " comment \"" + comment.value + "\"" else "";
    assert " accept" == [' '] + "accept" && " dport " == " " + "dport" + " ";
    LineJoin(proto, " dport ", ports, " accept", title);
    assert VerdictText(comment) == "accept" + title + "\n";
  }

  lemma LineJoin(proto: Str, dport: Str, ports: Str, accept: Str, title: Str)
    requires dport == " " + "dport" + " " && accept == [' '] + "accept"
    ensures "\t\t" + proto + dport + ports + accept + title + "\n" ==
            "\t\t" + (proto + " " + "dport" + " " + ports) + [' '] + ("accept" + title + "\n")
  {
  }

  lemma DportSays(proto: Str, ports: Str, comment: Option<Str>)
    requires PlainParts(proto, ports, comment)
    ensures Says(RuleLine(Dport(proto, ports, comment)), DportWords(proto, ports, comment))
  {
    DportStarts(proto, ports);
    VerdictEnds(comment);
    DportLine(proto, ports, comment);
    SaysJoin(2, "\t\t" + (proto + " " + "dport" + " " + ports) + [' '], [Bare(proto), Bare("dport"), Bare(ports)],
             VerdictText(comment), VerdictWords(comment));
  }

  lemma RuleSays(r: ChainRule)
    requires Plainly(r)
    ensures Says(RuleLine(r), RuleWords(r))
  {
    match r
    case AcceptTracked => TrackedSays();
    case DropInvalid => InvalidSays();
    case AcceptLoopback => LoopbackSays();
    case AcceptIcmp => IcmpSays();
    case Dport(proto, ports, comment) => DportSays(proto, ports, comment);
  }

  // ---------------------------------------------------------------- the words of a rule

  lemma TrackedStates()
    ensures Pieces("established,related") == ["established", "related"]
  {
    PiecesOfOne("related");
    PiecesOfMore("established", "related");
    assert "established" + [','] + "related" == "established,related";
  }

  lemma Keywords()
    ensures "drop" != "accept" && "iifname" != "ct" && "meta" != "ct" && "meta" != "iifname" && "icmp," != "}" && "ipv6-icmp" != "}"
    ensures "tcp" != "ct" && "tcp" != "iifname" && "tcp" != "meta" && "udp" != "ct" && "udp" != "iifname" && "udp" != "meta"
    ensures "ct"[0] != 't' && "type" != "ct" && "type" != "iifname" && "type" != "meta" && "type" != "tcp" && "type" != "udp"
  {
  }

  lemma SetEnds(rest: seq<Word>)
    ensures ReadSet([Bare("}")] + rest) == Some(([], rest))
  {
    var ws := [Bare("}")] + rest;
    assert ws[0] == Bare("}") && ws[1..] == rest;
  }

  lemma SetGoesOn(w: Str, name: Str, ws: seq<Word>, names: seq<Str>, rest: seq<Word>)
    requires w != "}" && name == Unmarked(w, ',') && ReadSet(ws) == Some((names, rest))
    ensures ReadSet([Bare(w)] + ws) == Some(([name] + names, rest))
  {
    assert ([Bare(w)] + ws)[1..] == ws;
  }

  lemma SetNames()
    ensures Unmarked("icmp,", ',') == "icmp" && Unmarked("ipv6-icmp", ',') == "ipv6-icmp"
  {
    var a, b := "icmp,", "ipv6-icmp";
    assert |a| == 5 && a[4] == ',' && a[..4] == "icmp";
    assert |b| == 9 && b[8] == 'p';
  }

  lemma SetOfTwo(a: Str, b: Str, rest: seq<Word>)
    requires a != "}" && b != "}"
    ensures ReadSet([Bare(a), Bare(b), Bare("}")] + rest) == Some(([Unmarked(a, ','), Unmarked(b, ',')], rest))
  {
    var end := [Bare("}")] + rest;
    SetEnds(rest);
    SetGoesOn(b, Unmarked(b, ','), end, [], rest);
    assert [Unmarked(b, ',')] + [] == [Unmarked(b, ',')];
    SetGoesOn(a, Unmarked(a, ','), [Bare(b)] + end, [Unmarked(b, ',')], rest);
    assert [Bare(a), Bare(b), Bare("}")] + rest == [Bare(a)] + ([Bare(b)] + end);
    assert [Unmarked(a, ',')] + [Unmarked(b, ',')] == [Unmarked(a, ','), Unmarked(b, ',')];
  }

  lemma IcmpSet(rest: seq<Word>)
    ensures ReadSet([Bare("icmp,"), Bare("ipv6-icmp"), Bare("}")] + rest) == Some((["icmp", "ipv6-icmp"], rest))
  {
    Keywords();
    SetNames();
    SetOfTwo("icmp,", "ipv6-icmp", rest);
  }

  lemma TrackedReads()
    ensures ReadStatement(RuleWords(AcceptTracked)) == Some(StatementOf(AcceptTracked))
  {
    TrackedStates();
  }

  lemma InvalidReads()
    ensures ReadStatement(RuleWords(DropInvalid)) == Some(StatementOf(DropInvalid))
  {
    Keywords();
    PiecesOfOne("invalid");
  }

  lemma LoopbackReads()
    ensures ReadStatement(RuleWords(AcceptLoopback)) == Some(StatementOf(AcceptLoopback))
  {
    Keywords();
  }

  lemma IcmpReads()
    ensures ReadStatement(RuleWords(AcceptIcmp)) == Some(StatementOf(AcceptIcmp))
  {
    Keywords();
    IcmpSet([Bare("accept")]);
    assert RuleWords(AcceptIcmp)[3..] == [Bare("icmp,"), Bare("ipv6-icmp"), Bare("}")] + [Bare("accept")];
  }

  lemma DportReads(proto: Str, ports: Str, comment: Option<Str>)
    requires ValidProto(proto)
    ensures ReadStatement(DportWords(proto, ports, comment)) == Some(StatementOf(Dport(proto, ports, comment)))
  {
    Keywords();
    var ws := DportWords(proto, ports, comment);
    assert ws[3..] == VerdictWords(comment);
  }

  lemma RuleReads(r: ChainRule)
    requires Plainly(r)
    ensures ReadStatement(RuleWords(r)) == Some(StatementOf(r))
  {
    match r
    case AcceptTracked => TrackedReads();
    case DropInvalid => InvalidReads();
    case AcceptLoopback => LoopbackReads();
    case AcceptIcmp => IcmpReads();
    case Dport(proto, ports, comment) => DportReads(proto, ports, comment);
  }

  // ---------------------------------------------------------------- the commands

  const OURS := TableName("inet", "singularity_firewall")

  const TABLE_WORDS := [Bare("table"), Bare("inet"), Bare("singularity_firewall")]
  const DELETE_WORDS := [Bare("delete"), Bare("table"), Bare("inet"), Bare("singularity_firewall")]
  const OPEN_WORDS := [Bare("table"), Bare("inet"), Bare("singularity_firewall"), Bare("{")]
  const CHAIN_WORDS := [Bare("chain"), Bare("input"), Bare("{")]
  const HOOK_WORDS := [Bare("type"), Bare("filter"), Bare("hook"), Bare("input"),
                       Bare("priority"), Bare("filter;"), Bare("policy"), Bare("drop;")]
  const CLOSE_WORDS := [Bare("}")]

  const INPUT := Hook("filter", "input", "filter", false)

  lemma CommandWords()
    ensures "delete" != "table" && "chain" != "}" && "type" != "}" && "table" != "}"
  {
  }

  lemma AddsTable(tables: Tables)
    ensures Command(tables, TABLE_WORDS) == Some(Outside(tables[OURS := ChainsOf(tables, OURS)]))
  {
  }

  lemma DeletesTable(tables: Tables)
    requires OURS in tables
    ensures Command(tables, DELETE_WORDS) == Some(Outside(tables - {OURS}))
  {
    CommandWords();
    assert DELETE_WORDS[1..] == TABLE_WORDS;
  }

  lemma OpensTable(tables: Tables)
    requires OURS !in tables
    ensures Command(tables, OPEN_WORDS) == Some(InTable(tables, OURS, map[]))
  {
  }

  lemma HookReads()
    ensures ReadHook(HOOK_WORDS) == Some(INPUT)
  {
    assert "filter;"[..6] == "filter" && "drop;"[..4] == "drop";
    Keywords();
  }

  lemma FirstRuns(s: Nft, first: seq<Word>, more: seq<seq<Word>>, next: Nft)
    requires Line(s, first) == Some(next)
    ensures RunLines(s, [first] + more) == RunLines(next, more)
  {
    assert ([first] + more)[0] == first && ([first] + more)[1..] == more;
  }

  /** A text that leaves nothing of an earlier table. */
  lemma ResetRuns(tables: Tables, more: seq<seq<Word>>)
    ensures RunLines(Outside(tables), [TABLE_WORDS, DELETE_WORDS] + more) == RunLines(Outside(tables - {OURS}), more)
  {
    var added := tables[OURS := ChainsOf(tables, OURS)];
    AddsTable(tables);
    DeletesTable(added);
    TwoMore(TABLE_WORDS, DELETE_WORDS, more);
    FirstRuns(Outside(tables), TABLE_WORDS, [DELETE_WORDS] + more, Outside(added));
    FirstRuns(Outside(added), DELETE_WORDS, more, Outside(added - {OURS}));
    assert added - {OURS} == tables - {OURS};
  }

  lemma OpeningRuns(tables: Tables, more: seq<seq<Word>>)
    requires OURS !in tables
    ensures RunLines(Outside(tables), [OPEN_WORDS, CHAIN_WORDS, HOOK_WORDS] + more) ==
            RunLines(InChain(tables, OURS, map[], "input", NftChain(Some(INPUT), [])), more)
  {
    var empty := InChain(tables, OURS, map[], "input", NftChain(None, []));
    OpensTable(tables);
    OpensChain(tables);
    Hooks(tables);
    TwoMore(CHAIN_WORDS, HOOK_WORDS, more);
    ThreeMore(OPEN_WORDS, CHAIN_WORDS, HOOK_WORDS, more);
    FirstRuns(Outside(tables), OPEN_WORDS, [CHAIN_WORDS] + ([HOOK_WORDS] + more), InTable(tables, OURS, map[]));
    FirstRuns(InTable(tables, OURS, map[]), CHAIN_WORDS, [HOOK_WORDS] + more, empty);
    FirstRuns(empty, HOOK_WORDS, more, InChain(tables, OURS, map[], "input", NftChain(Some(INPUT), [])));
  }

  lemma OpensChain(tables: Tables)
    ensures Line(InTable(tables, OURS, map[]), CHAIN_WORDS) ==
            Some(InChain(tables, OURS, map[], "input", NftChain(None, [])))
  {
  }

  lemma Hooks(tables: Tables)
    ensures Line(InChain(tables, OURS, map[], "input", NftChain(None, [])), HOOK_WORDS) ==
            Some(InChain(tables, OURS, map[], "input", NftChain(Some(INPUT), [])))
  {
    HookReads();
  }

  /** A line that reads as a statement is none of the other lines of a chain. */
  lemma StatementRuns(s: Nft, ws: seq<Word>, statement: Statement)
    requires s.InChain? && ReadStatement(ws) == Some(statement)
    ensures Line(s, ws) == Some(s.(body := s.body.(rules := s.body.rules + [statement])))
  {
    Keywords();
  }

  lemma {:induction false} StatementsRun(s: Nft, chain: seq<ChainRule>, more: seq<seq<Word>>)
    requires s.InChain? && forall i :: 0 <= i < |chain| ==> ReadStatement(RuleWords(chain[i])) == Some(StatementOf(chain[i]))
    ensures RunLines(s, Each(RuleWords, chain) + more) ==
            RunLines(s.(body := s.body.(rules := s.body.rules + Each(StatementOf, chain))), more)
    decreases |chain|
  {
    if chain == [] {
      EmptyConcat(more);
      assert s.body.rules + [] == s.body.rules;
    } else {
      var init, r := chain[..|chain| - 1], chain[|chain| - 1];
      ConcatAssoc(Each(RuleWords, init), [RuleWords(r)], more);
      StatementsRun(s, init, [RuleWords(r)] + more);
      var t := s.(body := s.body.(rules := s.body.rules + Each(StatementOf, init)));
      StatementRuns(t, RuleWords(r), StatementOf(r));
      assert ([RuleWords(r)] + more)[1..] == more;
      ConcatAssoc(s.body.rules, Each(StatementOf, init), [StatementOf(r)]);
    }
  }

  lemma TwoLines(s: Nft, first: seq<Word>, second: seq<Word>, middle: Nft, end: Nft)
    requires Line(s, first) == Some(middle) && Line(middle, second) == Some(end)
    ensures RunLines(s, [first, second]) == Some(end)
  {
    FirstRuns(s, first, [second], middle);
    FirstRuns(middle, second, [], end);
    assert [first] + [second] == [first, second] && [second] + [] == [second];
  }

  lemma ClosingRuns(tables: Tables, chain: Str, body: NftChain)
    ensures RunLines(InChain(tables, OURS, map[], chain, body), [CLOSE_WORDS, CLOSE_WORDS]) ==
            Some(Outside(tables[OURS := map[chain := body]]))
  {
    var closed := map[chain := body];
    assert map[][chain := body] == closed;
    TwoLines(InChain(tables, OURS, map[], chain, body), CLOSE_WORDS, CLOSE_WORDS,
             InTable(tables, OURS, closed), Outside(tables[OURS := closed]));
  }

  // ---------------------------------------------------------------- the lines of the text

  lemma TableGraphic()
    ensures Graphic("inet") && Graphic("singularity_firewall")
  {
  }

  lemma TableText()
    ensures TABLE == "inet" + " " + "singularity_firewall"
  {
    assert "inet" + " " == "inet ";
    assert "inet " + "singularity_firewall" == TABLE;
  }

  lemma TableEnds()
    ensures Ends(TABLE + "\n", [Bare("inet"), Bare("singularity_firewall")])
  {
    TableGraphic();
    TableText();
    Ends2(TABLE + "\n", Bare("inet"), Bare("singularity_firewall"));
  }

  lemma OpenEnds()
    ensures Ends(TABLE + " {\n", [Bare("inet"), Bare("singularity_firewall"), Bare("{")])
  {
    TableGraphic();
    TableText();
    Sentence3(Bare("inet"), Bare("singularity_firewall"), Bare("{"));
    WordsArePlain([Bare("inet"), Bare("singularity_firewall"), Bare("{")]);
    assert " {\n" == " " + "{" + ['\n'];
    Regroup3(TABLE, " ", "{", ['\n']);
  }

  lemma Regroup3(a: Str, b: Str, c: Str, d: Str)
    ensures a + (b + c + d) == a + b + c + d
  {
  }

  lemma TableStarts()
    ensures Starts(0, "table ", [Bare("table")])
  {
    TwoTabs();
    Sentence1(Bare("table"));
    WordsArePlain([Bare("table")]);
  }

  lemma DeleteStarts()
    ensures Starts(0, "delete table ", [Bare("delete"), Bare("table")])
  {
    TwoTabs();
    Sentence2(Bare("delete"), Bare("table"));
    WordsArePlain([Bare("delete"), Bare("table")]);
    assert "delete table " == "delete" + " " + "table" + [' '];
  }

  lemma JoinThree(head: Str, table: Str, tail: Str, depth: nat, xs: seq<Word>, ys: seq<Word>, ws: seq<Word>)
    requires Starts(depth, head, xs) && Ends(table + tail, ys) && ws == xs + ys
    ensures Says(head + table + tail, ws)
  {
    SaysJoin(depth, head, xs, table + tail, ys);
    ConcatAssoc(head, table, tail);
  }

  lemma TableSays()
    ensures Says("table " + TABLE + "\n", TABLE_WORDS)
    ensures Says("delete table " + TABLE + "\n", DELETE_WORDS)
  {
    TableEnds();
    TableStarts();
    DeleteStarts();
    JoinThree("table ", TABLE, "\n", 0, [Bare("table")], [Bare("inet"), Bare("singularity_firewall")], TABLE_WORDS);
    JoinThree("delete table ", TABLE, "\n", 0, [Bare("delete"), Bare("table")], [Bare("inet"), Bare("singularity_firewall")], DELETE_WORDS);
  }

  lemma OpenSays()
    ensures Says(OPEN_TABLE, OPEN_WORDS)
  {
    OpenEnds();
    TableStarts();
    JoinThree("table ", TABLE, " {\n", 0, [Bare("table")], [Bare("inet"), Bare("singularity_firewall"), Bare("{")], OPEN_WORDS);
  }

  lemma ChainStarts()
    ensures Starts(1, "\tchain ", [Bare("chain")])
  {
    TwoTabs();
    Sentence1(Bare("chain"));
    WordsArePlain([Bare("chain")]);
  }

  lemma ChainEnds()
    ensures Ends("input {\n", [Bare("input"), Bare("{")])
  {
    Ends2("input {\n", Bare("input"), Bare("{"));
  }

  lemma ChainSays()
    ensures Says(OPEN_CHAIN, CHAIN_WORDS)
  {
    ChainStarts();
    ChainEnds();
    SaysJoin(1, "\tchain ", [Bare("chain")], "input {\n", [Bare("input"), Bare("{")]);
    assert [Bare("chain")] + [Bare("input"), Bare("{")] == CHAIN_WORDS;
  }

  lemma HookGraphic()
    ensures Graphic("type") && Graphic("filter") && Graphic("hook") && Graphic("input")
    ensures Graphic("priority") && Graphic("filter;") && Graphic("policy") && Graphic("drop;")
  {
  }

  lemma HookHead()
    ensures "\t\ttype filter hook input " == "\t\t" + ("type" + " " + "filter" + " " + "hook" + " " + "input") + [' ']
  {
    assert "type" + " " + "filter" == "type filter" && " hook input" == " " + "hook" + " " + "input";
    FourJoined("type", "filter", "hook", "input");
    assert "\t\ttype filter hook input " == "\t\t" + ("type filter" + " hook input") + [' '];
  }

  lemma FourJoined(a: Str, b: Str, c: Str, d: Str)
    ensures a + " " + b + " " + c + " " + d == (a + " " + b) + (" " + c + " " + d)
  {
  }

  lemma HookStarts()
    ensures Starts(2, "\t\ttype filter hook input ", [Bare("type"), Bare("filter"), Bare("hook"), Bare("input")])
  {
    HookGraphic();
    HookHead();
    Starts4("\t\ttype filter hook input ", Bare("type"), Bare("filter"), Bare("hook"), Bare("input"));
  }

  lemma HookTail()
    ensures "priority filter; policy drop;\n" == "priority" + " " + "filter;" + " " + "policy" + " " + "drop;" + ['\n']
  {
    assert "priority" + " " + "filter;" == "priority filter;" && " policy drop;" == " " + "policy" + " " + "drop;";
    FourJoined("priority", "filter;", "policy", "drop;");
    assert "priority filter; policy drop;\n" == "priority filter;" + " policy drop;" + ['\n'];
  }

  lemma HookEnds()
    ensures Ends("priority filter; policy drop;\n", [Bare("priority"), Bare("filter;"), Bare("policy"), Bare("drop;")])
  {
    HookGraphic();
    HookTail();
    Ends4("priority filter; policy drop;\n", Bare("priority"), Bare("filter;"), Bare("policy"), Bare("drop;"));
  }

  lemma HookSays()
    ensures Says(HOOK, HOOK_WORDS)
  {
    HookStarts();
    HookEnds();
    var xs := [Bare("type"), Bare("filter"), Bare("hook"), Bare("input")];
    var ys := [Bare("priority"), Bare("filter;"), Bare("policy"), Bare("drop;")];
    SaysJoin(2, "\t\ttype filter hook input ", xs, "priority filter; policy drop;\n", ys);
    assert xs + ys == HOOK_WORDS;
  }

  lemma CloseSays()
    ensures Says("\t}\n", CLOSE_WORDS) && Says("}\n", CLOSE_WORDS)
  {
    TwoTabs();
    Sentence1(Bare("}"));
    WordsArePlain(CLOSE_WORDS);
    SaysAt(1, "\t}\n", CLOSE_WORDS);
    SaysAt(0, "}\n", CLOSE_WORDS);
  }

  // ---------------------------------------------------------------- the whole text

  lemma OneLineReads(line: Str, ws: seq<Word>)
    requires Says(line, ws)
    ensures Lines(line) == Some([ws])
  {
    LineReads(line, ws, [], []);
    assert line + [] == line && [ws] + [] == [ws];
  }

  lemma TwoRead(a: Str, wa: seq<Word>, b: Str, wb: seq<Word>, rest: Str, more: seq<seq<Word>>)
    requires Says(a, wa) && Says(b, wb) && Lines(rest) == Some(more)
    ensures Lines(a + b + rest) == Some([wa, wb] + more)
  {
    LineReads(b, wb, rest, more);
    LineReads(a, wa, b + rest, [wb] + more);
    ConcatAssoc(a, b, rest);
    TwoMore(wa, wb, more);
  }

  lemma ThreeRead(a: Str, wa: seq<Word>, b: Str, wb: seq<Word>, c: Str, wc: seq<Word>, rest: Str, more: seq<seq<Word>>)
    requires Says(a, wa) && Says(b, wb) && Says(c, wc) && Lines(rest) == Some(more)
    ensures Lines(a + (b + c) + rest) == Some([wa, wb, wc] + more)
  {
    TwoRead(b, wb, c, wc, rest, more);
    LineReads(a, wa, (b + c) + rest, [wb, wc] + more);
    ConcatAssoc(a, b + c, rest);
    ThreeMore(wa, wb, wc, more);
  }

  lemma ResetLines(rest: Str, more: seq<seq<Word>>)
    requires Lines(rest) == Some(more)
    ensures Lines(RESET + rest) == Some([TABLE_WORDS, DELETE_WORDS] + more)
  {
    TableSays();
    TwoRead("table " + TABLE + "\n", TABLE_WORDS, "delete table " + TABLE + "\n", DELETE_WORDS, rest, more);
  }

  lemma OpenLines(rest: Str, more: seq<seq<Word>>)
    requires Lines(rest) == Some(more)
    ensures Lines(OPEN + rest) == Some([OPEN_WORDS, CHAIN_WORDS, HOOK_WORDS] + more)
  {
    OpenSays();
    ChainSays();
    HookSays();
    ThreeRead(OPEN_TABLE, OPEN_WORDS, OPEN_CHAIN, CHAIN_WORDS, HOOK, HOOK_WORDS, rest, more);
  }

  lemma CloseLines()
    ensures Lines(CLOSE) == Some([CLOSE_WORDS, CLOSE_WORDS])
  {
    CloseSays();
    OneLineReads("}\n", CLOSE_WORDS);
    LineReads("\t}\n", CLOSE_WORDS, "}\n", [CLOSE_WORDS]);
    assert [CLOSE_WORDS] + [CLOSE_WORDS] == [CLOSE_WORDS, CLOSE_WORDS];
  }

  lemma ChainLines(chain: seq<ChainRule>, rest: Str, more: seq<seq<Word>>)
    requires (forall i :: 0 <= i < |chain| ==> Plainly(chain[i])) && Lines(rest) == Some(more)
    ensures Lines(LinesOf(chain) + rest) == Some(Each(RuleWords, chain) + more)
  {
    forall i | 0 <= i < |chain| ensures Says(RuleLine(chain[i]), RuleWords(chain[i])) {
      RuleSays(chain[i]);
    }
    PrintedReads(RuleLine, RuleWords, chain, rest, more);
  }

  /** What nft holds of the helper after it read the text. */
  function OursAfter(st: State): map<Str, NftChain> {
    map["input" := NftChain(Some(INPUT), Each(StatementOf, Chain(st)))]
  }

  // ---------------------------------------------------------------- valid states

  lemma ItemRulePlainly(item: Str, title: Str)
    requires ValidPortItem(item) && ValidLabel(title)
    ensures Plainly(ItemRule(item, title))
  {
    ItemChars(item);
    IndexSpec(item, '/');
    var ports := item[..Index(item, '/')];
    forall c | c in ports ensures PortChar(c) {
      assert c in item;
    }
  }

  lemma TokenRulesPlainly(r: Rule)
    requires ValidRule(r)
    ensures forall t :: t in TokenRules(r.ports, r.title) ==> Plainly(t)
  {
    TokensArePieces(r.ports, r.title);
    var pieces := Pieces(r.ports);
    forall i | 0 <= i < |pieces| ensures Plainly(ItemRules(pieces, r.title)[i]) {
      ItemRulePlainly(pieces[i], r.title);
    }
  }

  lemma {:induction false} RuleChainPlainly(publicProfile: bool, rules: seq<Rule>)
    requires forall i :: 0 <= i < |rules| ==> ValidRule(rules[i])
    ensures forall t :: t in RuleChain(publicProfile, rules) ==> Plainly(t)
    decreases |rules|
  {
    if rules != [] {
      TokenRulesPlainly(rules[0]);
      RuleChainPlainly(publicProfile, rules[1..]);
    }
  }

  lemma FixedPlainly()
    ensures (forall t :: t in FIXED ==> Plainly(t)) && Plainly(MDNS)
  {
  }

  lemma ChainPlainly(st: State)
    requires ValidState(st)
    ensures forall i :: 0 <= i < |Chain(st)| ==> Plainly(Chain(st)[i])
  {
    FixedPlainly();
    RuleChainPlainly(st.publicProfile, st.rules);
    var rules := RuleChain(st.publicProfile, st.rules);
    forall t | t in Chain(st) ensures Plainly(t) {
      assert t in FIXED || t == MDNS || t in rules;
    }
  }

  // ---------------------------------------------------------------- what nft makes of it

  /** A printed rule is one line, which nft reads as that rule: no label or port list can
      smuggle in another word. */
  lemma RuleReadsBack(r: ChainRule)
    requires Plainly(r)
    ensures var lines := Lines(RuleLine(r));
            lines.Some? && |lines.value| == 1 && ReadStatement(lines.value[0]) == Some(StatementOf(r))
  {
    RuleSays(r);
    OneLineReads(RuleLine(r), RuleWords(r));
    RuleReads(r);
  }

  lemma EnabledLines(lines: Str, words: seq<seq<Word>>)
    requires Lines(lines + CLOSE) == Some(words)
    ensures Lines(RESET + (OPEN + lines + CLOSE)) ==
            Some([TABLE_WORDS, DELETE_WORDS] + ([OPEN_WORDS, CHAIN_WORDS, HOOK_WORDS] + words))
  {
    OpenLines(lines + CLOSE, words);
    ConcatAssoc(OPEN, lines, CLOSE);
    ResetLines(OPEN + lines + CLOSE, [OPEN_WORDS, CHAIN_WORDS, HOOK_WORDS] + words);
  }

  lemma ChainRuns(tables: Tables, chain: seq<ChainRule>)
    requires OURS !in tables && forall i :: 0 <= i < |chain| ==> Plainly(chain[i])
    ensures RunLines(Outside(tables), [OPEN_WORDS, CHAIN_WORDS, HOOK_WORDS] + (Each(RuleWords, chain) + [CLOSE_WORDS, CLOSE_WORDS])) ==
            Some(Outside(tables[OURS := map["input" := NftChain(Some(INPUT), Each(StatementOf, chain))]]))
  {
    var end := [CLOSE_WORDS, CLOSE_WORDS];
    forall i | 0 <= i < |chain| ensures ReadStatement(RuleWords(chain[i])) == Some(StatementOf(chain[i])) {
      RuleReads(chain[i]);
    }
    var empty := InChain(tables, OURS, map[], "input", NftChain(Some(INPUT), []));
    OpeningRuns(tables, Each(RuleWords, chain) + end);
    StatementsRun(empty, chain, end);
    EmptyConcat(Each(StatementOf, chain));
    ClosingRuns(tables, "input", NftChain(Some(INPUT), Each(StatementOf, chain)));
  }

  /** Whatever nft held before, after the text it holds the helper's table with exactly the
      chain of the state, or no such table when disabled, and every other table as it was. */
  lemma {:induction false} RulesetReadsBack(before: Tables, st: State)
    requires ValidState(st)
    ensures Execute(before, RulesetText(st)) ==
            Some(if st.enabled then (before - {OURS})[OURS := OursAfter(st)] else before - {OURS})
  {
    var cleared := before - {OURS};
    if st.enabled {
      var chain := Chain(st);
      ChainPlainly(st);
      CloseLines();
      ChainLines(chain, CLOSE, [CLOSE_WORDS, CLOSE_WORDS]);
      var words := Each(RuleWords, chain) + [CLOSE_WORDS, CLOSE_WORDS];
      EnabledLines(LinesOf(chain), words);
      ResetRuns(before, [OPEN_WORDS, CHAIN_WORDS, HOOK_WORDS] + words);
      ChainRuns(cleared, chain);
    } else {
      ResetLines([], []);
      ResetRuns(before, []);
      assert RunLines(Outside(cleared), []) == Some(Outside(cleared));
    }
  }

  lemma {:induction false} EachAt<T, U>(f: T -> U, s: seq<T>)
    ensures |Each(f, s)| == |s| && forall i :: 0 <= i < |s| ==> Each(f, s)[i] == f(s[i])
    decreases |s|
  {
    if s != [] {
      EachAt(f, s[..|s| - 1]);
    }
  }

  lemma ChainPasses(n: Numerals, st: State, p: Packet)
    requires ValidState(st)
    ensures Passes(n, Each(StatementOf, Chain(st)), false, p) <==> Permitted(n, st, p)
  {
    EachAt(StatementOf, Chain(st));
    ChainPlainly(st);
    StatementsMeanRules(n, Each(StatementOf, Chain(st)), Chain(st), false, p);
    RulesetMeansPolicy(n, st, p);
  }

  /** From the printed text to the packet: nft takes the text, leaves every other table alone,
      and holds of the helper's table nothing when it is disabled, else one chain, on the
      input hook, that passes by its own policy exactly what the state permits. */
  lemma PrintedRulesetMeansPolicy(n: Numerals, before: Tables, st: State, p: Packet)
    requires ValidState(st)
    ensures Execute(before, RulesetText(st)).Some?
    ensures var after := Execute(before, RulesetText(st)).value;
            && after - {OURS} == before - {OURS}
            && (OURS in after <==> st.enabled)
            && (st.enabled ==> after[OURS].Keys == {"input"} && GuardsInput(n, after[OURS]["input"], st, p))
  {
    RulesetReadsBack(before, st);
    ChainPasses(n, st, p);
  }

  /** The chain sees incoming packets, and passes a packet exactly when the state permits it. */
  ghost predicate GuardsInput(n: Numerals, c: NftChain, st: State, p: Packet) {
    && c.hook.Some? && c.hook.value.kind == "filter" && c.hook.value.point == "input"
    && (Passes(n, c.rules, c.hook.value.accept, p) <==> Permitted(n, st, p))
  }

  // ---------------------------------------------------------------- labels

  lemma {:induction false} AdmittedTokens(publicProfile: bool, rules: seq<Rule>, r: Rule, token: ChainRule)
    requires r in rules && Admitted(publicProfile, r) && token in TokenRules(r.ports, r.title)
    ensures token in RuleChain(publicProfile, rules)
    decreases |rules|
  {
    if rules[0] != r {
      AdmittedTokens(publicProfile, rules[1..], r, token);
    }
  }

  lemma {:induction false} ItemIsToken(ports: Str, title: Str, i: nat)
    requires ValidPorts(ports) && i < |Pieces(ports)|
    ensures var it := ItemsOf(Pieces(ports))[i]; Dport(it.proto, PortText(it), Some(title)) in TokenRules(ports, title)
  {
    TokensArePieces(ports, title);
    var rules := ItemRules(Pieces(ports), title);
    assert rules[i] == ItemRule(Pieces(ports)[i], title);
    WrittenItemRule(ItemsOf(Pieces(ports))[i], title);
  }

  lemma ItemInChain(st: State, r: Rule, token: ChainRule)
    requires r in st.rules && Admitted(st.publicProfile, r) && token in TokenRules(r.ports, r.title)
    ensures StatementOf(token) in OursAfter(st)["input"].rules
  {
    AdmittedTokens(st.publicProfile, st.rules, r, token);
    EachHas(StatementOf, Chain(st), token);
  }

  /** Each item of each rule the profile admits is a statement of its own in the helper's chain, for
      its ports and protocol, with the label of the rule. */
  lemma {:induction false} EveryItemIsLabelled(st: State, r: Rule, i: nat)
    requires r in st.rules && Admitted(st.publicProfile, r) && ValidPorts(r.ports) && i < |Pieces(r.ports)|
    ensures var it := ItemsOf(Pieces(r.ports))[i];
            Statement(PortIs(it.proto, PortText(it)), true, Some(r.title)) in OursAfter(st)["input"].rules
  {
    var it := ItemsOf(Pieces(r.ports))[i];
    ItemIsToken(r.ports, r.title, i);
    ItemInChain(st, r, Dport(it.proto, PortText(it), Some(r.title)));
  }

  lemma EachHas<T, U>(f: T -> U, s: seq<T>, x: T)
    requires x in s
    ensures f(x) in Each(f, s)
  {
    EachAt(f, s);
    var i :| 0 <= i < |s| && s[i] == x;
    assert Each(f, s)[i] == f(x);
  }

  lemma WrittenItemRule(it: Item, title: Str)
    requires WellFormed(it)
    ensures ItemRule(Write(it), title) == Dport(it.proto, PortText(it), Some(title))
  {
    var ports := PortText(it);
    assert '/' !in ports by {
      match it
      case Single(_, port) => DigitsAvoid(port, '/');
      case Range(_, low, high) =>
        DigitsAvoid(low, '/');
        DigitsAvoid(high, '/');
    }
    IndexAt(ports, '/', it.proto);
  }
}
