/** Retention in the crash spool, one prune at a time and over whole histories of crashes. */
module CrashSpool {
  import opened CrashNames

  const NAME_SIZE := 256

  predicate HasSuffix(name: Name, suffix: Name) {
    |suffix| < |name| < NAME_SIZE && name[|name| - |suffix|..] == suffix
  }

  // ---------------------------------------------------------------- one prune

  /** Files of this kind with a greater name. */
  ghost function Newer(dir: set<Name>, suffix: Name, name: Name): set<Name> {
    set m | m in dir && HasSuffix(m, suffix) && Less(name, m)
  }

  /** A file survives a prune unless it is of the pruned kind and at least `keep` files of
      that kind have a greater name. */
  ghost predicate Survives(dir: set<Name>, suffix: Name, keep: nat, name: Name) {
    name in dir && (HasSuffix(name, suffix) ==> |Newer(dir, suffix, name)| < keep)
  }

  ghost function Pruned(dir: set<Name>, suffix: Name, keep: nat): set<Name> {
    set name | name in dir && Survives(dir, suffix, keep, name)
  }

  ghost predicate Ascending(list: seq<Name>) {
    forall i, j :: 0 <= i < j < |list| ==> Less(list[i], list[j])
  }

  ghost function Elements(list: seq<Name>): set<Name> { set n | n in list }

  /** In an ascending list of all files of a kind, the names after position `i` are the newer ones. */
  lemma NewerCount(dir: set<Name>, suffix: Name, list: seq<Name>, i: nat)
    requires Ascending(list) && i < |list|
    requires forall n :: n in list <==> n in dir && HasSuffix(n, suffix)
    ensures |Newer(dir, suffix, list[i])| == |list| - 1 - i
  {
    var tail := list[i + 1..];
    forall m ensures m in Newer(dir, suffix, list[i]) <==> m in tail {
      if m in tail {
        var k :| 0 <= k < |tail| && tail[k] == m;
        assert tail[k] == list[i + 1 + k];
      }
      if m in Newer(dir, suffix, list[i]) {
        var k :| 0 <= k < |list| && list[k] == m;
        LessAsymmetric(list[i], m);
        assert k > i;
        assert tail[k - i - 1] == m;
      }
    }
    assert Newer(dir, suffix, list[i]) == Elements(tail);
    AscendingSize(tail);
  }

  lemma {:induction false} AscendingSize(list: seq<Name>)
    requires Ascending(list)
    ensures |Elements(list)| == |list|
    decreases |list|
  {
    if list == [] {
      assert Elements(list) == {};
    } else {
      var rest := list[1..];
      AscendingSize(rest);
      forall k | 0 <= k < |rest| ensures rest[k] != list[0] {
        LessAsymmetric(list[0], rest[k]);
      }
      assert Elements(list) == Elements(rest) + {list[0]};
    }
  }

  function Last(list: seq<Name>, keep: nat): seq<Name> {
    if |list| <= keep then list else list[|list| - keep..]
  }

  /** Pruning keeps the last `keep` names of its kind and every other file. */
  lemma PrunedIsLast(dir: set<Name>, suffix: Name, keep: nat, list: seq<Name>, others: set<Name>)
    requires Ascending(list) && dir == Elements(list) + others
    requires forall n :: n in list ==> HasSuffix(n, suffix)
    requires forall n :: n in others ==> !HasSuffix(n, suffix)
    ensures Pruned(dir, suffix, keep) == Elements(Last(list, keep)) + others
  {
    forall n ensures n in Pruned(dir, suffix, keep) <==> n in Last(list, keep) || n in others {
      if n in list {
        var i :| 0 <= i < |list| && list[i] == n;
        NewerCount(dir, suffix, list, i);
        if |list| > keep {
          var last := list[|list| - keep..];
          if i >= |list| - keep {
            assert last[i - (|list| - keep)] == n;
          }
          if n in last {
            var k :| 0 <= k < |last| && last[k] == n;
            assert list[|list| - keep + k] == n;
            AscendingInjective(list, i, |list| - keep + k);
          }
        }
      } else {
        assert n !in Last(list, keep);
      }
    }
  }

  lemma AscendingInjective(list: seq<Name>, i: nat, j: nat)
    requires Ascending(list) && i < |list| && j < |list| && list[i] == list[j]
    ensures i == j
  {
    LessIrreflexive(list[i]);
  }

  // ---------------------------------------------------------------- one crash

  /** Limits after the configuration was clamped. */
  datatype Config = Config(keepCore: bool, maxCoreMb: nat, maxReports: nat, maxCores: nat)

  /** One run of the handler.  `coreWritten` and `reportWritten` are the outcomes of the two
      writes, were they attempted. */
  datatype Crash = Crash(time: nat, pid: nat, dumpable: bool, coreWritten: bool, reportWritten: bool)

  const CRASH: Name := ".crash"
  const CORE: Name := ".core"

  predicate SavesCore(cfg: Config, c: Crash) {
    cfg.keepCore && cfg.maxCores > 0 && c.dumpable && cfg.maxCoreMb > 0 && c.coreWritten
  }

  function Report(c: Crash): Name { ReportName(c.time, c.pid) }

  function Core(c: Crash): Name { CoreName(c.time, c.pid) }

  /** The directory when the report is about to be written. */
  ghost function BeforeReport(cfg: Config, dir: set<Name>, c: Crash): set<Name>
    requires cfg.maxReports > 0
  {
    var reportsPruned := Pruned(dir, CRASH, cfg.maxReports - 1);
    if SavesCore(cfg, c) then Pruned(reportsPruned + {Core(c)}, CORE, cfg.maxCores) else reportsPruned
  }

  ghost function Handle(cfg: Config, dir: set<Name>, c: Crash): set<Name>
    requires cfg.maxReports > 0
  {
    BeforeReport(cfg, dir, c) + if c.reportWritten then {Report(c)} else {}
  }

  ghost function SpoolAfter(cfg: Config, history: seq<Crash>): set<Name>
    requires cfg.maxReports > 0
  {
    if history == [] then {}
    else Handle(cfg, SpoolAfter(cfg, history[..|history| - 1]), history[|history| - 1])
  }

  /** The core named by a report survives the prune that follows it, and so exists when the
      report is written, exactly when fewer than `maxCores` stored cores have a greater name. */
  lemma OwnCoreSurvives(cfg: Config, dir: set<Name>, c: Crash)
    requires cfg.maxReports > 0 && SavesCore(cfg, c) && Printable(c)
    ensures Core(c) in BeforeReport(cfg, dir, c) <==>
            |Newer(Pruned(dir, CRASH, cfg.maxReports - 1) + {Core(c)}, CORE, Core(c))| < cfg.maxCores
  {
    SuffixesApart(c);
  }

  // ---------------------------------------------------------------- whole histories

  /** A time and a process number of a C `long`. */
  predicate Printable(c: Crash) { c.time < Pow10(20) && c.pid < Pow10(20) }

  /** The names of later crashes sort after those of earlier ones. */
  ghost predicate InOrder(history: seq<Crash>) {
    && (forall i :: 0 <= i < |history| ==> Printable(history[i]))
    && (forall i, j :: 0 <= i < j < |history| ==> Follows(history[i], history[j]))
  }

  predicate Follows(earlier: Crash, later: Crash) { Less(Report(earlier), Report(later)) && Less(Core(earlier), Core(later)) }

  /** Increasing times of ten digits put names in order. */
  lemma TimesInOrder(history: seq<Crash>)
    requires forall i :: 0 <= i < |history| ==> history[i].time < TIME_LIMIT && history[i].pid < Pow10(20)
    requires forall i, j :: 0 <= i < j < |history| ==> history[i].time < history[j].time
    ensures InOrder(history)
  {
    Pow10Ten();
    Pow10Grows(10, 20);
    forall i, j | 0 <= i < j < |history| ensures Follows(history[i], history[j]) {
      NamesInTimeOrder(history[i].time, history[i].pid, CRASH, history[j].time, history[j].pid, CRASH);
      NamesInTimeOrder(history[i].time, history[i].pid, CORE, history[j].time, history[j].pid, CORE);
    }
  }

  lemma {:induction false} Pow10Grows(a: nat, b: nat)
    requires a <= b
    ensures Pow10(a) <= Pow10(b)
    decreases b
  {
    if a < b {
      Pow10Grows(a, b - 1);
    }
  }

  function AllReports(history: seq<Crash>): seq<Name> {
    if history == [] then []
    else
      var c := history[|history| - 1];
      AllReports(history[..|history| - 1]) + (if c.reportWritten then [Report(c)] else [])
  }

  /** The cores worth keeping: those of dumpable processes that could be written, while cores are
      kept at all and have room. */
  function AllCores(cfg: Config, history: seq<Crash>): seq<Name> {
    if history == [] then []
    else
      var c := history[|history| - 1];
      AllCores(cfg, history[..|history| - 1]) +
      (if cfg.keepCore && cfg.maxCoreMb > 0 && c.dumpable && c.coreWritten then [Core(c)] else [])
  }

  /** The reports held: a failed write leaves one place empty. */
  function HeldReports(cfg: Config, history: seq<Crash>): seq<Name>
    requires cfg.maxReports > 0
  {
    if history == [] then []
    else
      var c := history[|history| - 1];
      Last(HeldReports(cfg, history[..|history| - 1]), cfg.maxReports - 1) + (if c.reportWritten then [Report(c)] else [])
  }

  lemma SuffixesApart(c: Crash)
    requires Printable(c)
    ensures HasSuffix(Report(c), CRASH) && HasSuffix(Core(c), CORE)
    ensures !HasSuffix(Report(c), CORE) && !HasSuffix(Core(c), CRASH)
  {
    PadLength(c.time, 10);
    DecimalLength(c.time, 20);
    DecimalLength(c.pid, 20);
    var base := Base(c.time, c.pid);
    assert Report(c)[|Report(c)| - 6..] == CRASH;
    assert Core(c)[|Core(c)| - 5..] == CORE;
    assert Report(c)[|Report(c)| - 1] == 'h' && CORE[4] == 'e';
    assert Core(c)[|Core(c)| - 1] == 'e' && CRASH[5] == 'h';
  }

  /** Every name in `list` sorts before `name`. */
  ghost predicate AllBelow(list: seq<Name>, name: Name) { forall n :: n in list ==> Less(n, name) }

  lemma AppendAscends(list: seq<Name>, name: Name)
    requires Ascending(list) && AllBelow(list, name)
    ensures Ascending(list + [name])
  {
    forall i | 0 <= i < |list| ensures Less(list[i], name) {
      assert list[i] in list;
    }
  }

  lemma LastAscends(list: seq<Name>, keep: nat)
    requires Ascending(list)
    ensures Ascending(Last(list, keep)) && |Last(list, keep)| <= keep && forall n :: n in Last(list, keep) ==> n in list
  {
  }

  ghost predicate Sorted(reports: seq<Name>, cores: seq<Name>) {
    && Ascending(reports) && (forall n :: n in reports ==> HasSuffix(n, CRASH) && !HasSuffix(n, CORE))
    && Ascending(cores) && (forall n :: n in cores ==> HasSuffix(n, CORE) && !HasSuffix(n, CRASH))
  }

  /** The crash is newer, by name, than everything stored. */
  ghost predicate Newest(reports: seq<Name>, cores: seq<Name>, c: Crash) {
    Printable(c) && AllBelow(reports, Report(c)) && AllBelow(cores, Core(c))
  }

  function NextReports(cfg: Config, reports: seq<Name>, c: Crash): seq<Name>
    requires cfg.maxReports > 0
  {
    Last(reports, cfg.maxReports - 1) + (if c.reportWritten then [Report(c)] else [])
  }

  function NextCores(cfg: Config, cores: seq<Name>, c: Crash): seq<Name> {
    if SavesCore(cfg, c) then Last(cores + [Core(c)], cfg.maxCores) else cores
  }

  lemma {:induction false} NextSorted(cfg: Config, c: Crash, reports: seq<Name>, cores: seq<Name>)
    requires cfg.maxReports > 0 && Sorted(reports, cores) && Newest(reports, cores, c)
    ensures Sorted(NextReports(cfg, reports, c), NextCores(cfg, cores, c))
  {
    SuffixesApart(c);
    var kept := Last(reports, cfg.maxReports - 1);
    LastAscends(reports, cfg.maxReports - 1);
    AppendAscends(kept, Report(c));
    AppendAscends(cores, Core(c));
    LastAscends(cores + [Core(c)], cfg.maxCores);
  }

  lemma ElementsSnoc(list: seq<Name>, n: Name)
    ensures Elements(list + [n]) == Elements(list) + {n}
  {
  }

  /** Pruning one kind right after a newest file of that kind was added. */
  lemma PruneWithNewest(others: seq<Name>, list: seq<Name>, n: Name, suffix: Name, keep: nat)
    requires Ascending(list + [n]) && (forall m :: m in list + [n] ==> HasSuffix(m, suffix))
    requires forall m :: m in others ==> !HasSuffix(m, suffix)
    ensures Pruned(Elements(others) + Elements(list) + {n}, suffix, keep) ==
            Elements(others) + Elements(Last(list + [n], keep))
  {
    var dir := Elements(others) + Elements(list) + {n};
    ElementsSnoc(list, n);
    assert dir == Elements(list + [n]) + Elements(others);
    PrunedIsLast(dir, suffix, keep, list + [n], Elements(others));
  }

  lemma {:induction false} CorePruned(cfg: Config, c: Crash, kept: seq<Name>, cores: seq<Name>)
    requires SavesCore(cfg, c) && Sorted(kept, cores) && Newest(kept, cores, c)
    ensures Pruned(Elements(kept) + Elements(cores) + {Core(c)}, CORE, cfg.maxCores) ==
            Elements(kept) + Elements(NextCores(cfg, cores, c))
  {
    SuffixesApart(c);
    AppendAscends(cores, Core(c));
    var core := Core(c);
    assert forall m :: m in cores + [core] ==> m in cores || m == core;
    PruneWithNewest(kept, cores, core, CORE, cfg.maxCores);
  }

  lemma ReportsPruned(cfg: Config, reports: seq<Name>, cores: seq<Name>)
    requires cfg.maxReports > 0 && Sorted(reports, cores)
    ensures var kept := Last(reports, cfg.maxReports - 1);
            && Pruned(Elements(reports) + Elements(cores), CRASH, cfg.maxReports - 1) == Elements(kept) + Elements(cores)
            && Sorted(kept, cores) && forall n :: n in kept ==> n in reports
  {
    LastAscends(reports, cfg.maxReports - 1);
    PrunedIsLast(Elements(reports) + Elements(cores), CRASH, cfg.maxReports - 1, reports, Elements(cores));
  }

  lemma BeforeReportSorted(cfg: Config, c: Crash, reports: seq<Name>, cores: seq<Name>)
    requires cfg.maxReports > 0 && Sorted(reports, cores) && Newest(reports, cores, c)
    ensures BeforeReport(cfg, Elements(reports) + Elements(cores), c) ==
            Elements(Last(reports, cfg.maxReports - 1)) + Elements(NextCores(cfg, cores, c))
  {
    ReportsPruned(cfg, reports, cores);
    if SavesCore(cfg, c) {
      CorePruned(cfg, c, Last(reports, cfg.maxReports - 1), cores);
    }
  }

  /** One crash, newer than everything stored, on a spool of reports and cores. */
  lemma {:induction false} HandleSorted(cfg: Config, c: Crash, reports: seq<Name>, cores: seq<Name>)
    requires cfg.maxReports > 0 && Sorted(reports, cores) && Newest(reports, cores, c)
    ensures Handle(cfg, Elements(reports) + Elements(cores), c) ==
            Elements(NextReports(cfg, reports, c)) + Elements(NextCores(cfg, cores, c))
    ensures SavesCore(cfg, c) ==> Core(c) in BeforeReport(cfg, Elements(reports) + Elements(cores), c)
  {
    BeforeReportSorted(cfg, c, reports, cores);
    var kept := Last(reports, cfg.maxReports - 1);
    var own: set<Name> := if c.reportWritten then {Report(c)} else {};
    assert Elements(NextReports(cfg, reports, c)) == Elements(kept) + own;
    assert Elements(kept) + Elements(NextCores(cfg, cores, c)) + own == Elements(kept) + own + Elements(NextCores(cfg, cores, c));
    if SavesCore(cfg, c) {
      var next := NextCores(cfg, cores, c);
      assert next[|next| - 1] == Core(c);
    }
  }

  lemma LastSnoc(list: seq<Name>, n: Name, keep: nat)
    requires keep > 0
    ensures Last(Last(list, keep) + [n], keep) == Last(list + [n], keep)
    ensures Last(list, keep - 1) + [n] == Last(list + [n], keep)
  {
  }

  lemma CoresSnoc(cfg: Config, history: seq<Crash>)
    requires history != []
    ensures var before, c := history[..|history| - 1], history[|history| - 1];
            Last(AllCores(cfg, history), cfg.maxCores) == NextCores(cfg, Last(AllCores(cfg, before), cfg.maxCores), c)
  {
    var before, c := history[..|history| - 1], history[|history| - 1];
    if SavesCore(cfg, c) {
      LastSnoc(AllCores(cfg, before), Core(c), cfg.maxCores);
    } else if cfg.maxCores == 0 {
      assert Last(AllCores(cfg, history), 0) == [] && Last(AllCores(cfg, before), 0) == [];
    } else {
      assert AllCores(cfg, history) == AllCores(cfg, before);
    }
  }

  ghost predicate SpoolHolds(cfg: Config, history: seq<Crash>, reports: seq<Name>, cores: seq<Name>)
    requires cfg.maxReports > 0
  {
    SpoolAfter(cfg, history) == Elements(reports) + Elements(cores) && Sorted(reports, cores)
  }

  /** Everything a history wrote sorts before a crash that follows all of it. */
  lemma {:induction false} AllFollowed(cfg: Config, history: seq<Crash>, c: Crash)
    requires forall i :: 0 <= i < |history| ==> Follows(history[i], c)
    ensures AllBelow(AllReports(history), Report(c)) && AllBelow(AllCores(cfg, history), Core(c))
    decreases |history|
  {
    if history != [] {
      AllFollowed(cfg, history[..|history| - 1], c);
      assert Follows(history[|history| - 1], c);
    }
  }

  lemma LastFrom(all: seq<Name>, keep: nat)
    ensures forall n :: n in Last(all, keep) ==> n in all
  {
  }

  lemma HeldIsNewest(cfg: Config, history: seq<Crash>, c: Crash)
    requires cfg.maxReports > 0 && Printable(c) && forall i :: 0 <= i < |history| ==> Follows(history[i], c)
    ensures Newest(HeldReports(cfg, history), Last(AllCores(cfg, history), cfg.maxCores), c)
  {
    AllFollowed(cfg, history, c);
    HeldIsTail(cfg, history);
    LastFrom(AllReports(history), |HeldReports(cfg, history)|);
    LastFrom(AllCores(cfg, history), cfg.maxCores);
  }

  /** The spool after any history whose names are in order: the reports held, and exactly
      the last `maxCores` saved cores. */
  lemma {:induction false} SpoolContents(cfg: Config, history: seq<Crash>)
    requires cfg.maxReports > 0 && InOrder(history)
    ensures SpoolHolds(cfg, history, HeldReports(cfg, history), Last(AllCores(cfg, history), cfg.maxCores))
    decreases |history|
  {
    if history == [] {
      assert Elements([]) == {};
    } else {
      var before, c := history[..|history| - 1], history[|history| - 1];
      SpoolContents(cfg, before);
      HeldIsNewest(cfg, before, c);
      HandleSorted(cfg, c, HeldReports(cfg, before), Last(AllCores(cfg, before), cfg.maxCores));
      NextSorted(cfg, c, HeldReports(cfg, before), Last(AllCores(cfg, before), cfg.maxCores));
      CoresSnoc(cfg, history);
    }
  }

  lemma LastOfTail(all: seq<Name>, k: nat, keep: nat)
    ensures Last(Last(all, k), keep) == Last(all, if k < keep then k else keep)
  {
  }

  lemma LastLength(all: seq<Name>, keep: nat)
    ensures |Last(all, keep)| == if |all| < keep then |all| else keep
    ensures Last(all, |Last(all, keep)|) == Last(all, keep)
  {
  }

  lemma HeldStep(all: seq<Name>, held: seq<Name>, added: seq<Name>, max: nat)
    requires held == Last(all, |held|) && |held| <= max && |added| <= 1 && max > 0
    ensures var held' := Last(held, max - 1) + added;
            && |held'| <= max && held' == Last(all + added, |held'|)
            && (held == Last(all, max) && |added| == 1 ==> held' == Last(all + added, max))
  {
    var kept := Last(held, max - 1);
    LastOfTail(all, |held|, max - 1);
    LastLength(all, if |held| < max - 1 then |held| else max - 1);
    assert kept == Last(all, |kept|);
    if added == [] {
      assert kept + added == kept && all + added == all;
    } else {
      assert added == [added[0]];
      LastSnoc(all, added[0], |kept| + 1);
      LastSnoc(all, added[0], max);
      LastOfTail(all, max, max - 1);
    }
  }

  /** What is held is always the tail of what was written, and when every report could be
      written it is exactly the last `maxReports` reports. */
  lemma {:induction false} HeldIsTail(cfg: Config, history: seq<Crash>)
    requires cfg.maxReports > 0
    ensures var held, all := HeldReports(cfg, history), AllReports(history);
            |held| <= cfg.maxReports && held == Last(all, |held|)
    ensures (forall i :: 0 <= i < |history| ==> history[i].reportWritten) ==>
              HeldReports(cfg, history) == Last(AllReports(history), cfg.maxReports)
    decreases |history|
  {
    if history != [] {
      var before, c := history[..|history| - 1], history[|history| - 1];
      HeldIsTail(cfg, before);
      HeldStep(AllReports(before), HeldReports(cfg, before), if c.reportWritten then [Report(c)] else [], cfg.maxReports);
    }
  }

  /** The spool keeps the newest: with all reports written, the directory holds exactly the
      last `maxReports` reports and the last `maxCores` saved cores. */
  lemma {:induction false} SpoolKeepsNewest(cfg: Config, history: seq<Crash>)
    requires cfg.maxReports > 0 && InOrder(history)
    requires forall i :: 0 <= i < |history| ==> history[i].reportWritten
    ensures SpoolAfter(cfg, history) ==
            Elements(Last(AllReports(history), cfg.maxReports)) + Elements(Last(AllCores(cfg, history), cfg.maxCores))
  {
    SpoolContents(cfg, history);
    HeldIsTail(cfg, history);
  }

  /** Every core a report names exists when that report is written, at each crash of a history. */
  lemma {:induction false} NamedCoreExists(cfg: Config, history: seq<Crash>, i: nat)
    requires cfg.maxReports > 0 && InOrder(history) && i < |history| && SavesCore(cfg, history[i])
    ensures Core(history[i]) in BeforeReport(cfg, SpoolAfter(cfg, history[..i]), history[i])
  {
    var before, c := history[..i], history[i];
    SpoolContents(cfg, before);
    HeldIsNewest(cfg, before, c);
    HandleSorted(cfg, c, HeldReports(cfg, before), Last(AllCores(cfg, before), cfg.maxCores));
  }

  // ---------------------------------------------------------------- whose cores these are

  /** `name` is the core of a crash whose process was dumpable and whose core was to be kept. */
  ghost predicate IsKeptCore(cfg: Config, history: seq<Crash>, name: Name) {
    && cfg.keepCore && cfg.maxCores > 0 && cfg.maxCoreMb > 0
    && exists i :: 0 <= i < |history| && name == Core(history[i]) && history[i].dumpable && history[i].coreWritten
  }

  lemma KeptCoreStays(cfg: Config, history: seq<Crash>, name: Name)
    requires history != [] && IsKeptCore(cfg, history[..|history| - 1], name)
    ensures IsKeptCore(cfg, history, name)
  {
    var before := history[..|history| - 1];
    var i :| 0 <= i < |before| && name == Core(before[i]) && before[i].dumpable && before[i].coreWritten;
    assert history[i] == before[i];
  }

  /** In whatever order crashes come, no core of a process that is not dumpable is ever in the
      spool, and none at all while cores are not to be kept. */
  lemma {:induction false} CoresAreKeptOnes(cfg: Config, history: seq<Crash>, name: Name)
    requires cfg.maxReports > 0 && forall i :: 0 <= i < |history| ==> Printable(history[i])
    requires name in SpoolAfter(cfg, history) && HasSuffix(name, CORE)
    ensures IsKeptCore(cfg, history, name)
    decreases |history|
  {
    var before, c := history[..|history| - 1], history[|history| - 1];
    SuffixesApart(c);
    if name in SpoolAfter(cfg, before) {
      CoresAreKeptOnes(cfg, before, name);
      KeptCoreStays(cfg, history, name);
    } else {
      assert name == Core(c) && SavesCore(cfg, c);
    }
  }

  // ---------------------------------------------------------------- crashes in the same second

  function CrashOf(time: nat, pid: nat): Crash { Crash(time, pid, true, true, true) }

  lemma LaterPidSortsFirst(time: nat)
    ensures Less(Core(CrashOf(time, 1000)), Core(CrashOf(time, 999)))
  {
    var head := PrintTime(time) + ['-'];
    assert Decimal(1000)[0] == '1' && Decimal(999)[0] == '9' by {
      assert Decimal(1000) == Decimal(100) + ['0'] && Decimal(100) == Decimal(10) + ['0'] && Decimal(10) == Decimal(1) + ['0'];
      assert Decimal(999) == Decimal(99) + ['9'] && Decimal(99) == Decimal(9) + ['9'];
    }
    assert Core(CrashOf(time, 1000)) == head + (Decimal(1000) + CORE);
    assert Core(CrashOf(time, 999)) == head + (Decimal(999) + CORE);
    LessCommonPrefix(head, Decimal(1000) + CORE, Decimal(999) + CORE);
  }

  /** Two crashes in one second whose process numbers grow by a digit are not in order: with one
      core kept, the second core is deleted by its own prune, and its report names a file that
      does not exist. */
  lemma {:induction false} SameSecondLosesCore(cfg: Config, time: nat)
    requires cfg.keepCore && cfg.maxCoreMb > 0 && cfg.maxReports > 0 && cfg.maxCores == 1 && time < TIME_LIMIT
    ensures var first, second := CrashOf(time, 999), CrashOf(time, 1000);
            !InOrder([first, second]) && Core(second) !in BeforeReport(cfg, SpoolAfter(cfg, [first]), second)
  {
    var first, second := CrashOf(time, 999), CrashOf(time, 1000);
    Pow10Ten();
    Pow10Grows(10, 20);
    LaterPidSortsFirst(time);
    LessAsymmetric(Core(second), Core(first));
    assert !Follows([first, second][0], [first, second][1]);
    FirstCoreHeld(cfg, first);
    OwnCoreSurvives(cfg, SpoolAfter(cfg, [first]), second);
    SuffixesApart(first);
    var newer := Newer(Pruned(SpoolAfter(cfg, [first]), CRASH, cfg.maxReports - 1) + {Core(second)}, CORE, Core(second));
    assert Core(first) in newer;
    assert newer != {};
  }

  lemma FirstCoreHeld(cfg: Config, c: Crash)
    requires cfg.maxReports > 0 && SavesCore(cfg, c) && Printable(c)
    ensures Core(c) in SpoolAfter(cfg, [c])
    ensures Core(c) in Pruned(SpoolAfter(cfg, [c]), CRASH, cfg.maxReports - 1)
  {
    assert [c][..0] == [] && SpoolAfter(cfg, []) == {};
    SuffixesApart(c);
    assert InOrder([c]);
    NamedCoreExists(cfg, [c], 0);
  }
}
