/** The nft ruleset built from a state, and that its first-match meaning is the policy. */
module FirewallRuleset {
  import opened Basics
  import opened CText
  import opened FirewallPorts
  import opened FirewallFile

  // ---------------------------------------------------------------- nft

  datatype CtState = New | Established | Related | Invalid | Untracked

  datatype L4 = Tcp | Udp | Icmp | IcmpV6 | OtherL4

  /** What the rules look at: connection state, input interface, protocol, destination port. */
  datatype Packet = Packet(ct: CtState, iif: Str, l4: L4, dport: nat)

  /** A rule of the input chain; `Dport` keeps the texts that were printed. */
  datatype ChainRule =
    | AcceptTracked
    | DropInvalid
    | AcceptLoopback
    | AcceptIcmp
    | Dport(proto: Str, ports: Str, comment: Option<Str>)

  /** How the reader of the ruleset takes digits: all as decimal, or as octal after a leading
      zero, as C and nft's scanner do. */
  datatype Numerals = Decimals | LeadingZeroOctal

  predicate AllOctal(s: Str) { forall i :: 0 <= i < |s| ==> '0' <= s[i] <= '7' }

  function Octal(s: Str): nat
    requires AllOctal(s)
  {
    if s == [] then 0 else 8 * Octal(s[..|s| - 1]) + (s[|s| - 1] as int - '0' as int)
  }

  /** The number a text is read as, if it is one. */
  function NumberRead(n: Numerals, s: Str): Option<nat> {
    if s == [] || !AllDigits(s) then None
    else if n.LeadingZeroOctal? && s[0] == '0' then (if AllOctal(s) then Some(Octal(s)) else None)
    else Some(Decimal(s))
  }

  /** How a port expression is read: a number, or two with a dash between. */
  predicate PortsCover(n: Numerals, ports: Str, dport: nat) {
    IndexSpec(ports, '-');
    var dash := Index(ports, '-');
    if dash < 0 then NumberRead(n, ports) == Some(dport) else InRange(n, ports[..dash], ports[dash + 1..], dport)
  }

  predicate InRange(n: Numerals, low: Str, high: Str, dport: nat) {
    && NumberRead(n, low).Some? && NumberRead(n, high).Some?
    && NumberRead(n, low).value <= dport <= NumberRead(n, high).value
  }

  predicate ProtoIs(proto: Str, l4: L4) { (proto == "tcp" && l4 == Tcp) || (proto == "udp" && l4 == Udp) }

  predicate Matches(n: Numerals, r: ChainRule, p: Packet) {
    match r
    case AcceptTracked => p.ct == Established || p.ct == Related
    case DropInvalid => p.ct == Invalid
    case AcceptLoopback => p.iif == "lo"
    case AcceptIcmp => p.l4 == Icmp || p.l4 == IcmpV6
    case Dport(proto, ports, _) => ProtoIs(proto, p.l4) && PortsCover(n, ports, p.dport)
  }

  /** The first matching rule decides, and the policy of the chain where none matches. */
  predicate Accepts(n: Numerals, chain: seq<ChainRule>, policy: bool, p: Packet) {
    if chain == [] then policy
    else if Matches(n, chain[0], p) then !chain[0].DropInvalid?
    else Accepts(n, chain[1..], policy, p)
  }

  function RuleLine(r: ChainRule): Str {
    match r
    case AcceptTracked => "\t\tct state " + "established,related accept\n"
    case DropInvalid => "\t\tct state " + "invalid drop\n"
    case AcceptLoopback => "\t\tiifname " + "\"lo\" accept\n"
    case AcceptIcmp => "\t\tmeta l4proto { " + "icmp, ipv6-icmp } accept\n"
    case Dport(proto, ports, comment) =>
      "\t\t" + proto + " dport " + ports + " accept" +
      (if comment.Some? then " comment \"" + comment.value + "\"" else "") + "\n"
  }

  // ---------------------------------------------------------------- the chain that is built

  const FIXED: seq<ChainRule> := [
    AcceptTracked, DropInvalid, AcceptLoopback, AcceptIcmp,
    Dport("udp", "68", None), Dport("udp", "546", None)]

  const MDNS := Dport("udp", "5353", Some("mDNS"))

  /** Split an item at its first slash and print the two halves, as the loop does. */
  function ItemRule(item: Str, title: Str): ChainRule {
    IndexSpec(item, '/');
    var slash := Index(item, '/');
    if slash < 0 then Dport([], item, Some(title))
    else Dport(item[slash + 1..], item[..slash], Some(title))
  }

  /** The `strtok_r` loop over a port list. */
  function TokenRules(ports: Str, title: Str): seq<ChainRule>
    decreases |ports|
  {
    StrtokShrinks(ports, ',');
    match Strtok(ports, ',')
    case (None, _) => []
    case (Some(item), rest) => [ItemRule(item, title)] + TokenRules(rest, title)
  }

  predicate Admitted(publicProfile: bool, r: Rule) { !publicProfile || r.publicToo }

  function RuleChain(publicProfile: bool, rules: seq<Rule>): seq<ChainRule> {
    if rules == [] then []
    else
      (if Admitted(publicProfile, rules[0]) then TokenRules(rules[0].ports, rules[0].title) else [])
      + RuleChain(publicProfile, rules[1..])
  }

  function Chain(st: State): seq<ChainRule> {
    FIXED + (if st.publicProfile then [] else [MDNS]) + RuleChain(st.publicProfile, st.rules)
  }

  lemma {:induction false} SkipShrinks(s: Str, c: char)
    ensures |SkipLeading(s, c)| <= |s|
    decreases |s|
  {
    if s != [] && s[0] == c {
      SkipShrinks(s[1..], c);
    }
  }

  lemma StrtokShrinks(s: Str, c: char)
    ensures Strtok(s, c).0.Some? ==> |Strtok(s, c).1| < |s|
  {
    SkipShrinks(s, c);
    IndexSpec(SkipLeading(s, c), c);
  }

  // ---------------------------------------------------------------- strtok splits at the commas

  lemma ValidItemShape(item: Str)
    requires ValidPortItem(item)
    ensures item != []
  {
    IndexSpec(item, '/');
  }

  function ItemRules(pieces: seq<Str>, title: Str): (rules: seq<ChainRule>)
    ensures |rules| == |pieces| && forall i :: 0 <= i < |rules| ==> rules[i] == ItemRule(pieces[i], title)
  {
    if pieces == [] then [] else [ItemRule(pieces[0], title)] + ItemRules(pieces[1..], title)
  }

  lemma ItemRulesCons(head: Str, rest: seq<Str>, title: Str)
    ensures ItemRules([head] + rest, title) == [ItemRule(head, title)] + ItemRules(rest, title)
  {
    assert ([head] + rest)[1..] == rest;
  }

  lemma TokenRulesStep(ports: Str, item: Str, rest: Str, title: Str)
    requires Strtok(ports, ',') == (Some(item), rest)
    ensures TokenRules(ports, title) == [ItemRule(item, title)] + TokenRules(rest, title)
  {
  }

  /** For validated ports the tokens are exactly the comma-split items. */
  lemma {:induction false} TokensArePieces(ports: Str, title: Str)
    requires AllItems(Pieces(ports))
    ensures TokenRules(ports, title) == ItemRules(Pieces(ports), title)
    decreases |ports|
  {
    var last, item, rest := SplitFirst(ports);
    AllItemsCons(item, if last then [] else Pieces(rest));
    ValidItemShape(item);
    ItemRulesCons(item, if last then [] else Pieces(rest), title);
    if last {
      StrtokLast(item, ',');
      TokenRulesStep(ports, item, [], title);
    } else {
      StrtokAt(item, ',', rest);
      TokenRulesStep(ports, item, rest, title);
      TokensArePieces(rest, title);
    }
  }

  // ---------------------------------------------------------------- the policy

  /** The item, with its numbers as they are read, covers the packet. */
  predicate Covers(n: Numerals, it: Item, p: Packet)
    requires WellFormed(it)
  {
    && (p.l4 == if it.proto == "tcp" then Tcp else Udp)
    && match it
       case Single(_, port) => NumberRead(n, port) == Some(p.dport)
       case Range(_, low, high) => InRange(n, low, high, p.dport)
  }

  /** A rule lets a packet in when one of its items covers the protocol and port. */
  ghost predicate RuleCovers(n: Numerals, r: Rule, p: Packet) {
    && ValidPorts(r.ports)
    && var items := ItemsOf(Pieces(r.ports));
       exists i :: 0 <= i < |items| && Covers(n, items[i], p)
  }

  ghost predicate SomeRuleCovers(n: Numerals, publicProfile: bool, rules: seq<Rule>, p: Packet) {
    exists r :: r in rules && Admitted(publicProfile, r) && RuleCovers(n, r, p)
  }

  predicate FixedAccept(publicProfile: bool, p: Packet) {
    || p.ct == Established || p.ct == Related
    || (p.ct != Invalid &&
        (|| p.iif == "lo" || p.l4 == Icmp || p.l4 == IcmpV6
         || (p.l4 == Udp && (p.dport == 68 || p.dport == 546 || (!publicProfile && p.dport == 5353)))))
  }

  /** What the policy permits when its numbers are read as `n` says; as it was meant, in decimal. */
  ghost predicate Permitted(n: Numerals, st: State, p: Packet) {
    || FixedAccept(st.publicProfile, p)
    || (p.ct != Invalid && SomeRuleCovers(n, st.publicProfile, st.rules, p))
  }

  // ---------------------------------------------------------------- meaning

  lemma {:induction false} AcceptsConcat(n: Numerals, a: seq<ChainRule>, b: seq<ChainRule>, policy: bool, p: Packet)
    requires forall i :: 0 <= i < |a| ==> !a[i].DropInvalid?
    ensures Accepts(n, a + b, policy, p) <==> (exists i :: 0 <= i < |a| && Matches(n, a[i], p)) || Accepts(n, b, policy, p)
    decreases |a|
  {
    if a == [] {
      assert a + b == b;
    } else {
      assert (a + b)[0] == a[0] && (a + b)[1..] == a[1..] + b;
      AcceptsConcat(n, a[1..], b, policy, p);
      assert forall i :: 0 <= i < |a[1..]| ==> a[1..][i] == a[i + 1];
      assert forall i :: 0 < i < |a| ==> a[i] == a[1..][i - 1];
    }
  }

  /** A printed item matches exactly the packets the parsed item covers. */
  lemma ItemRuleMeansItem(n: Numerals, item: Str, title: Str, p: Packet)
    requires ValidPortItem(item)
    ensures Matches(n, ItemRule(item, title), p) <==> Covers(n, ParseItem(item), p)
  {
    IndexSpec(item, '/');
    IndexSpec(item[..Index(item, '/')], '-');
  }

  lemma TokenRulesMeanRule(n: Numerals, r: Rule, tokens: seq<ChainRule>, p: Packet)
    requires ValidPorts(r.ports) && tokens == TokenRules(r.ports, r.title)
    ensures forall i :: 0 <= i < |tokens| ==> !tokens[i].DropInvalid?
    ensures (exists i :: 0 <= i < |tokens| && Matches(n, tokens[i], p)) <==> RuleCovers(n, r, p)
  {
    var pieces := Pieces(r.ports);
    TokensArePieces(r.ports, r.title);
    ItemsAreParsed(pieces);
    forall i | 0 <= i < |pieces|
      ensures Matches(n, tokens[i], p) <==> Covers(n, ItemsOf(pieces)[i], p)
      ensures !tokens[i].DropInvalid?
    {
      ItemRuleMeansItem(n, pieces[i], r.title, p);
    }
  }

  lemma SomeRuleCoversCons(n: Numerals, publicProfile: bool, rules: seq<Rule>, p: Packet)
    requires rules != []
    ensures SomeRuleCovers(n, publicProfile, rules, p) <==>
            (Admitted(publicProfile, rules[0]) && RuleCovers(n, rules[0], p)) || SomeRuleCovers(n, publicProfile, rules[1..], p)
  {
    assert forall r :: r in rules <==> r == rules[0] || r in rules[1..];
  }

  lemma {:induction false} RuleChainMeansRules(n: Numerals, publicProfile: bool, rules: seq<Rule>, p: Packet)
    requires forall i :: 0 <= i < |rules| ==> ValidRule(rules[i])
    ensures Accepts(n, RuleChain(publicProfile, rules), false, p) <==> SomeRuleCovers(n, publicProfile, rules, p)
    decreases |rules|
  {
    if rules != [] {
      var rest := rules[1..];
      RuleChainMeansRules(n, publicProfile, rest, p);
      SomeRuleCoversCons(n, publicProfile, rules, p);
      if Admitted(publicProfile, rules[0]) {
        var tokens := TokenRules(rules[0].ports, rules[0].title);
        TokenRulesMeanRule(n, rules[0], tokens, p);
        AcceptsConcat(n, tokens, RuleChain(publicProfile, rest), false, p);
      } else {
        assert RuleChain(publicProfile, rules) == RuleChain(publicProfile, rest);
      }
    }
  }

  lemma PlainPorts(n: Numerals, dport: nat)
    ensures PortsCover(n, "68", dport) <==> dport == 68
    ensures PortsCover(n, "546", dport) <==> dport == 546
    ensures PortsCover(n, "5353", dport) <==> dport == 5353
  {
    IndexSpec("68", '-');
    IndexSpec("546", '-');
    IndexSpec("5353", '-');
    assert Decimal("6") == 6 && "68"[..1] == "6";
    assert Decimal("5") == 5 && "54"[..1] == "5" && Decimal("54") == 54 && "546"[..2] == "54";
    assert "53"[..1] == "5" && Decimal("53") == 53 && "535"[..2] == "53" && Decimal("535") == 535 && "5353"[..3] == "535";
  }

  lemma {:induction false} FixedMeans(n: Numerals, rest: seq<ChainRule>, policy: bool, p: Packet)
    ensures Accepts(n, FIXED + rest, policy, p) <==>
            FixedAccept(true, p) || (p.ct != Invalid && Accepts(n, rest, policy, p))
  {
    PlainPorts(n, p.dport);
    var tail := FIXED[2..] + rest;
    AcceptsConcat(n, FIXED[2..], rest, policy, p);
    assert (FIXED + rest)[1..][1..] == tail;
    assert FIXED[2..] == [AcceptLoopback, AcceptIcmp, Dport("udp", "68", None), Dport("udp", "546", None)];
    var f := FIXED[2..];
    assert (exists i :: 0 <= i < |f| && Matches(n, f[i], p)) <==>
           Matches(n, f[0], p) || Matches(n, f[1], p) || Matches(n, f[2], p) || Matches(n, f[3], p);
  }

  /** The ruleset means the policy: the chain built for a valid state, dropping what no rule
      matches, accepts a packet exactly when a fixed rule does or a rule admitted by the profile has an item that
      covers its protocol and port, however numbers are read. */
  lemma {:induction false} RulesetMeansPolicy(n: Numerals, st: State, p: Packet)
    requires ValidState(st)
    ensures Accepts(n, Chain(st), false, p) <==> Permitted(n, st, p)
  {
    var mdns := if st.publicProfile then [] else [MDNS];
    var rules := RuleChain(st.publicProfile, st.rules);
    assert Chain(st) == FIXED + (mdns + rules);
    FixedMeans(n, mdns + rules, false, p);
    AcceptsConcat(n, mdns, rules, false, p);
    RuleChainMeansRules(n, st.publicProfile, st.rules, p);
    PlainPorts(n, p.dport);
    assert !st.publicProfile ==> mdns[0] == MDNS;
  }

  /** Whatever the public profile accepts, the home profile accepts too. */
  lemma HomeAcceptsMore(n: Numerals, st: State, p: Packet)
    requires ValidState(st)
    ensures Accepts(n, Chain(st.(publicProfile := true)), false, p) ==> Accepts(n, Chain(st.(publicProfile := false)), false, p)
  {
    RulesetMeansPolicy(n, st.(publicProfile := true), p);
    RulesetMeansPolicy(n, st.(publicProfile := false), p);
  }

  // ---------------------------------------------------------------- numbers with leading zeros

  /** The numbers of the item are read as the decimal numbers they were checked as. */
  predicate ReadsPlainly(n: Numerals, it: Item)
    requires WellFormed(it)
  {
    match it
    case Single(_, port) => NumberRead(n, port) == Some(Decimal(port))
    case Range(_, low, high) => NumberRead(n, low) == Some(Decimal(low)) && NumberRead(n, high) == Some(Decimal(high))
  }

  function PacketTo(it: Item, dport: nat): Packet { Packet(New, "eth0", if it.proto == "tcp" then Tcp else Udp, dport) }

  /** A port that tells two ranges apart, the first of which is not empty. */
  lemma RangesDiffer(low: nat, high: nat, low': nat, high': nat) returns (dport: nat)
    requires 0 < low <= high && (low, high) != (low', high')
    ensures low <= dport <= high <==> !(low' <= dport <= high')
  {
    if low' > low || high' < low {
      dport := low;
    } else if low' < low {
      dport := low - 1;
    } else {
      dport := if high' < high then high else high + 1;
    }
  }

  /** An item covers what it was meant to cover exactly when its numbers are read as decimal. */
  lemma CoversAsMeantExactly(n: Numerals, it: Item)
    requires WellFormed(it)
    ensures (forall p :: Covers(n, it, p) <==> Covers(Decimals, it, p)) <==> ReadsPlainly(n, it)
  {
    if !ReadsPlainly(n, it) {
      match it
      case Single(_, port) =>
        assert Covers(Decimals, it, PacketTo(it, Decimal(port))) && !Covers(n, it, PacketTo(it, Decimal(port)));
      case Range(_, low, high) =>
        var dport := Decimal(low);
        if NumberRead(n, low).Some? && NumberRead(n, high).Some? {
          dport := RangesDiffer(Decimal(low), Decimal(high), NumberRead(n, low).value, NumberRead(n, high).value);
        }
        assert Covers(Decimals, it, PacketTo(it, dport)) <==> !Covers(n, it, PacketTo(it, dport));
    }
  }

  /** A number that does not begin with a zero is always read as decimal. */
  lemma NoZeroReadsPlainly(n: Numerals, s: Str)
    requires ValidNumber(s) && (n.Decimals? || s[0] != '0')
    ensures NumberRead(n, s) == Some(Decimal(s))
  {
  }

  /** Every item of every admitted rule is read as it was meant. */
  ghost predicate AllReadPlainly(n: Numerals, st: State) {
    forall r, i :: r in st.rules && Admitted(st.publicProfile, r) && ValidPorts(r.ports) && 0 <= i < |Pieces(r.ports)| ==>
      ReadsPlainly(n, ItemsOf(Pieces(r.ports))[i])
  }

  /** Then the ruleset means the policy as it was meant, in decimal. */
  lemma {:induction false} RulesetMeansDecimalPolicy(n: Numerals, st: State, p: Packet)
    requires ValidState(st) && AllReadPlainly(n, st)
    ensures Accepts(n, Chain(st), false, p) <==> Permitted(Decimals, st, p)
  {
    RulesetMeansPolicy(n, st, p);
    forall r | r in st.rules && Admitted(st.publicProfile, r)
      ensures RuleCovers(n, r, p) <==> RuleCovers(Decimals, r, p)
    {
      if ValidPorts(r.ports) {
        var items := ItemsOf(Pieces(r.ports));
        forall i | 0 <= i < |items| ensures Covers(n, items[i], p) <==> Covers(Decimals, items[i], p) {
          CoversAsMeantExactly(n, items[i]);
        }
      }
    }
  }

  /** A leading zero passes the checks, and an octal reader opens another port: 8 for 010. */
  lemma LeadingZeroOpensAnotherPort()
    ensures var it := Single("tcp", "010");
            && WellFormed(it) && ValidPortItem(Write(it)) && !ReadsPlainly(LeadingZeroOctal, it)
            && Covers(Decimals, it, PacketTo(it, 10)) && !Covers(LeadingZeroOctal, it, PacketTo(it, 10))
            && Covers(LeadingZeroOctal, it, PacketTo(it, 8)) && !Covers(Decimals, it, PacketTo(it, 8))
  {
    var it := Single("tcp", "010");
    assert "010"[..2] == "01" && "01"[..1] == "0" && "0"[..0] == "";
    assert Decimal("0") == 0 && Decimal("01") == 1 && Decimal("010") == 10;
    assert Octal("0") == 0 && Octal("01") == 1 && Octal("010") == 8;
    ParseWrite(it);
  }
}
