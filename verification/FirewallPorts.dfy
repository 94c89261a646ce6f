/** Validation of rule ids, labels and port lists, and the grammar that port lists form. */
module FirewallPorts {
  import opened CText

  predicate IdChar(c: char) { 'a' <= c <= 'z' || '0' <= c <= '9' || c == '-' }

  predicate LabelChar(c: char) { c as int >= 0x20 && c != '"' && c != '\\' && c as int != 0x7f }

  predicate ValidId(id: Str) { 0 < |id| <= 32 && forall i :: 0 <= i < |id| ==> IdChar(id[i]) }

  predicate ValidLabel(title: Str) { 0 < |title| <= 64 && forall i :: 0 <= i < |title| ==> LabelChar(title[i]) }

  predicate ValidNumber(s: Str) { 0 < |s| <= 5 && AllDigits(s) && 1 <= Decimal(s) <= 65535 }

  predicate ValidProto(s: Str) { s == "tcp" || s == "udp" }

  /** The item check as the program makes it: split at the first slash, then at the first dash. */
  predicate ValidPortItem(item: Str) {
    IndexSpec(item, '/');
    var slash := Index(item, '/');
    && slash >= 0
    && ValidProto(item[slash + 1..])
    && var ports := item[..slash];
       IndexSpec(ports, '-');
       var dash := Index(ports, '-');
       if dash < 0 then ValidNumber(ports)
       else ValidNumber(ports[..dash]) && ValidNumber(ports[dash + 1..]) && Decimal(ports[..dash]) < Decimal(ports[dash + 1..])
  }

  /** The pieces of a comma-separated list. */
  function Pieces(s: Str): seq<Str>
    decreases |s|
  {
    IndexSpec(s, ',');
    var comma := Index(s, ',');
    if comma < 0 then [s] else [s[..comma]] + Pieces(s[comma + 1..])
  }

  predicate AllItems(pieces: seq<Str>) { All(pieces, ValidPortItem) }

  predicate All<T(!new)>(s: seq<T>, p: T -> bool) { forall i :: 0 <= i < |s| ==> p(s[i]) }

  lemma AllCons<T(!new)>(head: T, rest: seq<T>, p: T -> bool)
    ensures All([head] + rest, p) <==> p(head) && All(rest, p)
  {
    var all := [head] + rest;
    assert all[0] == head;
    assert forall i :: 0 <= i < |rest| ==> rest[i] == all[i + 1];
    assert forall i :: 0 < i < |all| ==> all[i] == rest[i - 1];
  }

  lemma AllItemsCons(head: Str, rest: seq<Str>)
    ensures AllItems([head] + rest) <==> ValidPortItem(head) && AllItems(rest)
  {
    AllCons(head, rest, ValidPortItem);
  }

  /** A list is one piece, or a piece, a comma and the rest. */
  lemma SplitFirst(s: Str) returns (last: bool, item: Str, rest: Str)
    ensures ',' !in item
    ensures if last then item == s && Pieces(s) == [item] + []
            else s == item + [','] + rest && |rest| < |s| && Pieces(s) == [item] + Pieces(rest)
  {
    IndexSpec(s, ',');
    var comma := Index(s, ',');
    last, item, rest := comma < 0, s, [];
    if comma >= 0 {
      item, rest := s[..comma], s[comma + 1..];
    }
  }

  predicate ValidPorts(ports: Str) { 0 < |ports| <= 255 && AllItems(Pieces(ports)) }

  // ---------------------------------------------------------------- the validators

  method CheckId(id: Str) returns (ok: bool)
    ensures ok <==> ValidId(id)
  {
    if |id| == 0 || |id| > 32 { return false; }
    for i := 0 to |id|
      invariant forall k :: 0 <= k < i ==> IdChar(id[k])
    {
      if !('a' <= id[i] <= 'z' || '0' <= id[i] <= '9' || id[i] == '-') { return false; }
    }
    return true;
  }

  method CheckLabel(title: Str) returns (ok: bool)
    ensures ok <==> ValidLabel(title)
  {
    if |title| == 0 || |title| > 64 { return false; }
    for i := 0 to |title|
      invariant forall k :: 0 <= k < i ==> LabelChar(title[k])
    {
      var c := title[i];
      if c as int < 0x20 || c == '"' || c == '\\' || c as int == 0x7f { return false; }
    }
    return true;
  }

  method CheckNumber(s: Str) returns (ok: bool, value: nat)
    ensures ok <==> ValidNumber(s)
    ensures ok ==> value == Decimal(s)
  {
    value := 0;
    if |s| == 0 || |s| > 5 { return false, 0; }
    for i := 0 to |s|
      invariant AllDigits(s[..i]) && value == Decimal(s[..i])
    {
      if s[i] < '0' || s[i] > '9' { return false, 0; }
      assert s[..i + 1][..i] == s[..i];
      value := value * 10 + (s[i] as int - '0' as int);
    }
    assert s[..|s|] == s;
    ok := 1 <= value <= 65535;
  }

  method CheckPortItem(item: Str) returns (ok: bool)
    ensures ok <==> ValidPortItem(item)
  {
    IndexSpec(item, '/');
    var slash := Index(item, '/');
    if slash < 0 { return false; }
    var proto := item[slash + 1..];
    if !(|proto| == 3 && (proto == "tcp" || proto == "udp")) { return false; }
    var ports := item[..slash];
    IndexSpec(ports, '-');
    var dash := Index(ports, '-');
    var a, b := 0, 0;
    if dash < 0 {
      ok, a := CheckNumber(ports);
      return;
    }
    ok, a := CheckNumber(ports[..dash]);
    if !ok { return; }
    ok, b := CheckNumber(ports[dash + 1..]);
    ok := ok && a < b;
  }

  /** The pieces of a list, seen from its first comma. */
  lemma {:induction false} PiecesAt(s: Str, comma: int)
    requires comma == Index(s, ',')
    ensures comma < |s|
    ensures comma < 0 ==> Pieces(s) == [s] + []
    ensures comma >= 0 ==> Pieces(s) == [s[..comma]] + Pieces(s[comma + 1..])
  {
    IndexSpec(s, ',');
  }

  method CheckPorts(ports: Str) returns (ok: bool)
    ensures ok <==> ValidPorts(ports)
  {
    if |ports| == 0 || |ports| > 255 { return false; }
    var rest := ports;
    while true
      invariant AllItems(Pieces(ports)) <==> AllItems(Pieces(rest))
      decreases |rest|
    {
      var comma := Index(rest, ',');
      PiecesAt(rest, comma);
      var item := if comma >= 0 then rest[..comma] else rest;
      AllItemsCons(item, if comma >= 0 then Pieces(rest[comma + 1..]) else []);
      var valid := CheckPortItem(item);
      if !valid { return false; }
      if comma < 0 { return true; }
      rest := rest[comma + 1..];
    }
  }

  // ---------------------------------------------------------------- the grammar

  /** `N/proto` or `A-B/proto`, the numbers kept as written. */
  datatype Item = Single(proto: Str, port: Str) | Range(proto: Str, low: Str, high: Str)

  predicate WellFormed(it: Item) {
    && ValidProto(it.proto)
    && match it
       case Single(_, port) => ValidNumber(port)
       case Range(_, low, high) => ValidNumber(low) && ValidNumber(high) && Decimal(low) < Decimal(high)
  }

  function PortText(it: Item): Str {
    match it
    case Single(_, port) => port
    case Range(_, low, high) => low + ['-'] + high
  }

  function Write(it: Item): Str { PortText(it) + ['/'] + it.proto }

  function WriteAll(items: seq<Item>): Str
    requires items != []
  {
    if |items| == 1 then Write(items[0]) else Write(items[0]) + [','] + WriteAll(items[1..])
  }

  function ParseItem(s: Str): (it: Item)
    requires ValidPortItem(s)
    ensures WellFormed(it) && Write(it) == s
  {
    IndexSpec(s, '/');
    var slash := Index(s, '/');
    var ports, proto := s[..slash], s[slash + 1..];
    IndexSpec(ports, '-');
    var dash := Index(ports, '-');
    assert ports + ['/'] + proto == s;
    if dash < 0 then Single(proto, ports)
    else
      assert ports[..dash] + ['-'] + ports[dash + 1..] == ports;
      Range(proto, ports[..dash], ports[dash + 1..])
  }

  lemma DigitsAvoid(s: Str, c: char)
    requires AllDigits(s) && !IsDigit(c)
    ensures c !in s
  {
  }

  lemma ParseWriteSingle(proto: Str, port: Str)
    requires WellFormed(Single(proto, port))
    ensures ValidPortItem(Write(Single(proto, port))) && ParseItem(Write(Single(proto, port))) == Single(proto, port)
  {
    DigitsAvoid(port, '/');
    DigitsAvoid(port, '-');
    IndexAt(port, '/', proto);
    IndexSpec(port, '-');
  }

  lemma ParseWriteRange(proto: Str, low: Str, high: Str)
    requires WellFormed(Range(proto, low, high))
    ensures var it := Range(proto, low, high); ValidPortItem(Write(it)) && ParseItem(Write(it)) == it
  {
    DigitsAvoid(low, '/');
    DigitsAvoid(high, '/');
    DigitsAvoid(low, '-');
    IndexAt(low + ['-'] + high, '/', proto);
    IndexAt(low, '-', high);
  }

  lemma WrittenHasNoComma(it: Item)
    requires WellFormed(it)
    ensures ',' !in PortText(it) && ',' !in Write(it) && Write(it) != []
  {
    match it
    case Single(_, port) => DigitsAvoid(port, ',');
    case Range(_, low, high) =>
      DigitsAvoid(low, ',');
      DigitsAvoid(high, ',');
  }

  /** Reading back a written item gives the item: items are unambiguous. */
  lemma ParseWrite(it: Item)
    requires WellFormed(it)
    ensures ValidPortItem(Write(it)) && ParseItem(Write(it)) == it
  {
    match it
    case Single(proto, port) => ParseWriteSingle(proto, port);
    case Range(proto, low, high) => ParseWriteRange(proto, low, high);
  }

  function ItemsOf(pieces: seq<Str>): (items: seq<Item>)
    requires AllItems(pieces)
    ensures |items| == |pieces|
    ensures forall i :: 0 <= i < |items| ==> WellFormed(items[i]) && Write(items[i]) == pieces[i]
  {
    if pieces == [] then [] else [ParseItem(pieces[0])] + ItemsOf(pieces[1..])
  }

  /** Items are written as these pieces. */
  ghost predicate Writes(items: seq<Item>, pieces: seq<Str>) {
    |items| == |pieces| && forall i :: 0 <= i < |items| ==> Write(items[i]) == pieces[i]
  }

  lemma WritesCons(items: seq<Item>, head: Str, rest: seq<Str>)
    requires Writes(items, [head] + rest)
    ensures items != [] && Write(items[0]) == head && Writes(items[1..], rest)
  {
    var all := [head] + rest;
    assert Write(items[0]) == all[0];
    forall i | 0 <= i < |rest| ensures Write(items[1..][i]) == rest[i] {
      assert Write(items[i + 1]) == all[i + 1];
    }
  }

  /** Splitting at commas is undone by writing the pieces back. */
  lemma {:induction false} WriteAllPieces(s: Str, items: seq<Item>)
    requires Writes(items, Pieces(s))
    ensures items != [] && WriteAll(items) == s
    decreases |s|
  {
    var last, item, rest := SplitFirst(s);
    WritesCons(items, item, if last then [] else Pieces(rest));
    if !last {
      WriteAllPieces(rest, items[1..]);
    }
  }

  lemma PiecesOfOne(s: Str)
    requires ',' !in s
    ensures Pieces(s) == [s]
  {
    IndexSpec(s, ',');
  }

  lemma PiecesOfMore(item: Str, rest: Str)
    requires ',' !in item
    ensures Pieces(item + [','] + rest) == [item] + Pieces(rest)
  {
    IndexAt(item, ',', rest);
  }

  lemma WritesPrepend(it: Item, items: seq<Item>, pieces: seq<Str>)
    requires Writes(items, pieces)
    ensures Writes([it] + items, [Write(it)] + pieces)
  {
  }

  lemma {:induction false} PiecesWriteAll(items: seq<Item>)
    requires items != [] && AllWellFormed(items)
    ensures Writes(items, Pieces(WriteAll(items)))
    decreases |items|
  {
    WrittenHasNoComma(items[0]);
    if |items| == 1 {
      PiecesOfOne(Write(items[0]));
    } else {
      var rest := items[1..];
      PiecesWriteAll(rest);
      PiecesOfMore(Write(items[0]), WriteAll(rest));
      WritesPrepend(items[0], rest, Pieces(WriteAll(rest)));
      assert [items[0]] + rest == items;
    }
  }

  /** Accepted port strings are exactly the comma lists of `N/proto` and `A-B/proto` with
      1 <= A < B <= 65535, up to 255 bytes, and each is written in one way only. */
  lemma {:induction false} PortsGrammar(ports: Str)
    ensures ValidPorts(ports) <==>
            |ports| <= 255 && exists items: seq<Item> :: items != [] && AllWellFormed(items) && WriteAll(items) == ports
    ensures forall items: seq<Item> :: items != [] && AllWellFormed(items) && WriteAll(items) == ports && |ports| <= 255 ==>
              ValidPorts(ports) && items == ItemsOf(Pieces(ports))
  {
    if ValidPorts(ports) {
      var items := ItemsOf(Pieces(ports));
      WriteAllPieces(ports, items);
      assert AllWellFormed(items);
    }
    forall items: seq<Item> | items != [] && AllWellFormed(items) && WriteAll(items) == ports && |ports| <= 255
      ensures ValidPorts(ports) && items == ItemsOf(Pieces(ports))
    {
      PiecesWriteAll(items);
      WrittenItems(items, Pieces(ports));
      WrittenNotEmpty(items);
    }
  }

  lemma WrittenNotEmpty(items: seq<Item>)
    requires items != []
    ensures WriteAll(items) != []
  {
  }

  lemma WrittenItems(items: seq<Item>, pieces: seq<Str>)
    requires AllWellFormed(items) && Writes(items, pieces)
    ensures AllItems(pieces) && ItemsOf(pieces) == items
  {
    forall i | 0 <= i < |pieces| ensures ValidPortItem(pieces[i]) && ParseItem(pieces[i]) == items[i] {
      ParseWrite(items[i]);
    }
    ItemsAreParsed(pieces);
  }

  ghost predicate AllWellFormed(items: seq<Item>) { forall i :: 0 <= i < |items| ==> WellFormed(items[i]) }

  lemma {:induction false} ItemsAreParsed(pieces: seq<Str>)
    requires AllItems(pieces)
    ensures forall i :: 0 <= i < |pieces| ==> ItemsOf(pieces)[i] == ParseItem(pieces[i])
    decreases |pieces|
  {
    if pieces != [] {
      ItemsAreParsed(pieces[1..]);
    }
  }

  /** A validated port string holds no space, comma-free pieces aside. */
  lemma PortsHaveNoSpace(ports: Str)
    requires ValidPorts(ports)
    ensures ' ' !in ports && '\n' !in ports && '\0' !in ports
  {
    PortsChars(ports);
  }

  predicate PortChar(c: char) { IsDigit(c) || c == '-' || c == '/' || c == ',' || 'a' <= c <= 'z' }

  lemma {:induction false} PortsChars(s: Str)
    requires AllItems(Pieces(s))
    ensures forall c :: c in s ==> PortChar(c)
    decreases |s|
  {
    var last, item, rest := SplitFirst(s);
    AllItemsCons(item, if last then [] else Pieces(rest));
    ItemChars(item);
    if !last {
      PortsChars(rest);
    }
  }

  lemma ItemChars(s: Str)
    requires ValidPortItem(s)
    ensures forall c :: c in s ==> PortChar(c)
  {
    var it := ParseItem(s);
    assert forall c :: c in it.proto ==> PortChar(c);
    match it
    case Single(_, port) => assert forall c :: c in port ==> IsDigit(c);
    case Range(_, low, high) =>
      assert forall c :: c in low ==> IsDigit(c);
      assert forall c :: c in high ==> IsDigit(c);
  }
}
