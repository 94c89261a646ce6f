/** The helper's commands: every call loads the state file, edits the rule table and saves. */
module FirewallCommands {
  import opened Basics
  import opened CText
  import opened FirewallPorts
  import opened FirewallFile

  datatype Command =
    | Status
    | ApplyRules
    | Enable
    | Disable
    | Profile(name: Str)
    | Allow(id: Str, pub: Str, ports: Str, title: Str)
    | Revoke(id: Str)
    | Unknown

  /** The slot `allow` writes to among the first `n` rules: the last one with this id, or -1. */
  function SlotIn(rules: seq<Rule>, id: Str, n: nat): int
    requires n <= |rules|
  {
    if n == 0 then -1 else if rules[n - 1].id == id then n - 1 else SlotIn(rules, id, n - 1)
  }

  lemma {:induction false} SlotSpec(rules: seq<Rule>, id: Str, n: nat)
    requires n <= |rules|
    ensures var slot := SlotIn(rules, id, n);
            if slot < 0 then slot == -1 && forall i :: 0 <= i < n ==> rules[i].id != id
            else slot < n && rules[slot].id == id
    decreases n
  {
    if n > 0 && rules[n - 1].id != id {
      SlotSpec(rules, id, n - 1);
    }
  }

  function Put(rules: seq<Rule>, r: Rule): Option<seq<Rule>> {
    SlotSpec(rules, r.id, |rules|);
    var slot := SlotIn(rules, r.id, |rules|);
    if slot >= 0 then Some(rules[slot := r])
    else if |rules| >= MAX_RULES then None
    else Some(rules + [r])
  }

  function Without(rules: seq<Rule>, id: Str): seq<Rule> {
    if rules == [] then []
    else
      var kept := Without(rules[..|rules| - 1], id);
      if rules[|rules| - 1].id != id then kept + [rules[|rules| - 1]] else kept
  }

  /** The edited state, or nothing when the command is refused or edits nothing. */
  function Edit(st: State, cmd: Command): Option<State> {
    match cmd
    case Enable => Some(st.(enabled := true))
    case Disable => Some(st.(enabled := false))
    case Profile(name) =>
      if name == "home" || name == "public" then Some(st.(publicProfile := name == "public")) else None
    case Allow(id, pub, ports, title) =>
      if !ValidId(id) || (pub != "0" && pub != "1") || !ValidPorts(ports) || !ValidLabel(title) then None
      else
        (match Put(st.rules, Rule(id, pub == "1", ports, title))
         case Some(rules) => Some(st.(rules := rules))
         case None => None)
    case Revoke(id) => if ValidId(id) then Some(st.(rules := Without(st.rules, id))) else None
    case _ => None
  }

  /** One process: `saved` is false for a dry run and when the file cannot be replaced. */
  datatype Call = Call(cmd: Command, saved: bool)

  function Exec(file: Option<Str>, call: Call): Option<Str> {
    match Edit(Load(file), call.cmd)
    case Some(st) => if call.saved then Some(Print(st)) else file
    case None => file
  }

  /** The state file after a sequence of calls, starting without one. */
  function FileAfter(calls: seq<Call>): Option<Str> {
    if calls == [] then None else Exec(FileAfter(calls[..|calls| - 1]), calls[|calls| - 1])
  }

  /** The same calls as edits of one table in memory. */
  function TableAfter(calls: seq<Call>): State {
    if calls == [] then EMPTY
    else
      var st, call := TableAfter(calls[..|calls| - 1]), calls[|calls| - 1];
      match Edit(st, call.cmd)
      case Some(st') => if call.saved then st' else st
      case None => st
  }

  // ---------------------------------------------------------------- an ordered map

  ghost predicate DistinctIds(rules: seq<Rule>) {
    forall i, j :: 0 <= i < j < |rules| ==> rules[i].id != rules[j].id
  }

  function Find(rules: seq<Rule>, id: Str): Option<Rule> {
    if rules == [] then None else if rules[0].id == id then Some(rules[0]) else Find(rules[1..], id)
  }

  function Ids(rules: seq<Rule>): seq<Str> {
    seq(|rules|, i requires 0 <= i < |rules| => rules[i].id)
  }

  lemma {:induction false} FindAt(rules: seq<Rule>, id: Str, k: nat)
    requires DistinctIds(rules) && k < |rules| && rules[k].id == id
    ensures Find(rules, id) == Some(rules[k])
    decreases |rules|
  {
    if k > 0 {
      FindAt(rules[1..], id, k - 1);
    }
  }

  lemma {:induction false} FindNone(rules: seq<Rule>, id: Str)
    ensures Find(rules, id).None? <==> id !in Ids(rules)
    decreases |rules|
  {
    if rules != [] {
      FindNone(rules[1..], id);
      assert Ids(rules) == [rules[0].id] + Ids(rules[1..]);
    }
  }

  /** Two tables with distinct ids that hold the same rules under `id` agree on it. */
  lemma FindAgrees(a: seq<Rule>, b: seq<Rule>, id: Str)
    requires DistinctIds(a) && DistinctIds(b)
    requires forall k :: 0 <= k < |a| && a[k].id == id ==> a[k] in b
    requires forall k :: 0 <= k < |b| && b[k].id == id ==> b[k] in a
    ensures Find(a, id) == Find(b, id)
  {
    FindNone(a, id);
    FindNone(b, id);
    if k :| 0 <= k < |a| && a[k].id == id {
      var l :| 0 <= l < |b| && b[l] == a[k];
      FindAt(a, id, k);
      FindAt(b, id, l);
    } else {
      assert forall l :: 0 <= l < |b| ==> b[l].id != id;
    }
  }

  /** `allow` is insert-or-replace: it binds its id, leaves every other binding and the
      order of ids alone, appends a new id at the end, and is refused only when a new id
      meets a full table. */
  lemma {:induction false} PutIsInsertOrReplace(rules: seq<Rule>, r: Rule)
    requires DistinctIds(rules) && |rules| <= 64
    ensures Put(rules, r).None? <==> r.id !in Ids(rules) && |rules| == 64
    ensures Put(rules, r).Some? ==>
              var rules' := Put(rules, r).value;
              && DistinctIds(rules') && |rules'| <= 64 && (forall x :: x in rules' ==> x == r || x in rules)
              && Ids(rules') == (if r.id in Ids(rules) then Ids(rules) else Ids(rules) + [r.id])
              && Find(rules', r.id) == Some(r)
              && forall id :: id != r.id ==> Find(rules', id) == Find(rules, id)
  {
    SlotSpec(rules, r.id, |rules|);
    var slot := SlotIn(rules, r.id, |rules|);
    if slot >= 0 {
      assert Ids(rules)[slot] == r.id;
    } else {
      assert forall i :: 0 <= i < |rules| ==> Ids(rules)[i] != r.id;
    }
    if Put(rules, r).Some? {
      var rules' := Put(rules, r).value;
      var at := if slot >= 0 then slot else |rules|;
      assert rules'[at] == r;
      FindAt(rules', r.id, at);
      forall id | id != r.id ensures Find(rules', id) == Find(rules, id) {
        forall k | 0 <= k < |rules| && rules[k].id == id ensures rules[k] in rules' {
          assert rules'[k] == rules[k];
        }
        FindAgrees(rules', rules, id);
      }
    }
  }

  lemma {:induction false} WithoutAbsent(rules: seq<Rule>, id: Str)
    requires forall i :: 0 <= i < |rules| ==> rules[i].id != id
    ensures Without(rules, id) == rules
    decreases |rules|
  {
    if rules != [] {
      WithoutAbsent(rules[..|rules| - 1], id);
    }
  }

  /** `revoke` removes exactly the rule with its id and closes the gap in order. */
  lemma {:induction false} WithoutRemoves(rules: seq<Rule>, id: Str, k: nat)
    requires DistinctIds(rules) && k < |rules| && rules[k].id == id
    ensures Without(rules, id) == rules[..k] + rules[k + 1..]
    decreases |rules|
  {
    var last := |rules| - 1;
    var init := rules[..last];
    if k == last {
      WithoutAbsent(init, id);
    } else {
      assert init[k] == rules[k] && rules[last].id != id;
      WithoutRemoves(init, id, k);
      assert init[..k] == rules[..k] && init[k + 1..] + [rules[last]] == rules[k + 1..];
    }
  }

  /** A table without the place `k`: every other rule keeps its neighbours. */
  lemma GapClosed(rules: seq<Rule>, k: nat, rules': seq<Rule>)
    requires DistinctIds(rules) && k < |rules| && rules' == rules[..k] + rules[k + 1..]
    ensures DistinctIds(rules') && forall r :: r in rules' <==> r in rules && r.id != rules[k].id
  {
    forall i | 0 <= i < |rules'| ensures rules'[i] == rules[if i < k then i else i + 1] {
    }
    forall i | 0 <= i < |rules| && i != k ensures rules[i] == rules'[if i < k then i else i - 1] {
    }
  }

  lemma WithoutKeeps(rules: seq<Rule>, id: Str)
    requires DistinctIds(rules)
    ensures DistinctIds(Without(rules, id)) && |Without(rules, id)| <= |rules|
    ensures forall r :: r in Without(rules, id) <==> r in rules && r.id != id
  {
    if k :| 0 <= k < |rules| && rules[k].id == id {
      WithoutRemoves(rules, id, k);
      GapClosed(rules, k, rules[..k] + rules[k + 1..]);
    } else {
      WithoutAbsent(rules, id);
    }
  }

  lemma WithoutIsRemove(rules: seq<Rule>, id: Str)
    requires DistinctIds(rules)
    ensures DistinctIds(Without(rules, id)) && |Without(rules, id)| <= |rules|
    ensures Find(Without(rules, id), id).None?
    ensures forall other :: other != id ==> Find(Without(rules, id), other) == Find(rules, other)
    ensures forall r :: r in Without(rules, id) ==> r in rules
  {
    var rules' := Without(rules, id);
    WithoutKeeps(rules, id);
    FindNone(rules', id);
    forall other | other != id ensures Find(rules', other) == Find(rules, other) {
      FindAgrees(rules', rules, other);
    }
  }

  // ---------------------------------------------------------------- whole histories

  ghost predicate Sound(st: State) { ValidState(st) && DistinctIds(st.rules) }

  lemma EditKeepsSound(st: State, cmd: Command)
    requires Sound(st)
    ensures Edit(st, cmd).Some? ==> Sound(Edit(st, cmd).value)
  {
    match cmd {
      case Allow(id, pub, ports, title) => PutIsInsertOrReplace(st.rules, Rule(id, pub == "1", ports, title));
      case Revoke(id) => WithoutIsRemove(st.rules, id);
      case _ =>
    }
    if Edit(st, cmd).Some? {
      var rules := Edit(st, cmd).value.rules;
      forall i | 0 <= i < |rules| ensures ValidRule(rules[i]) {
        assert rules[i] in rules;
      }
    }
  }

  /** After any sequence of calls from no state file, the file reads back as the table the
      calls describe; all its rules are valid, at most 64, with pairwise distinct ids. */
  lemma {:induction false} HistoriesAreSound(calls: seq<Call>)
    ensures Load(FileAfter(calls)) == TableAfter(calls)
    ensures Sound(TableAfter(calls))
    decreases |calls|
  {
    if calls != [] {
      var before, call := calls[..|calls| - 1], calls[|calls| - 1];
      HistoriesAreSound(before);
      EditKeepsSound(TableAfter(before), call.cmd);
      match Edit(TableAfter(before), call.cmd)
      case Some(st) => StateFileRoundTrip(st);
      case None =>
    }
  }
}
