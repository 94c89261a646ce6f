/** The handler's pruning loops, and one whole run on the user's spool directory. */
module CrashHandler {
  import opened CrashNames
  import opened CrashSpool

  /** Reading a directory: every entry once, in no particular order. */
  method ReadDirectory(files: set<Name>) returns (entries: seq<Name>)
    ensures forall n :: n in entries <==> n in files
    ensures forall i, j :: 0 <= i < j < |entries| ==> entries[i] != entries[j]
  {
    entries := [];
    var rest := files;
    while rest != {}
      invariant rest <= files
      invariant forall n :: n in files <==> n in rest || n in entries
      invariant forall n :: n in rest ==> n !in entries
      invariant forall i, j :: 0 <= i < j < |entries| ==> entries[i] != entries[j]
      decreases rest
    {
      var n :| n in rest;
      rest := rest - {n};
      entries := entries + [n];
    }
  }

  /** Sorting by `strcmp`; the entries of a directory are distinct. */
  method SortNames(list: seq<Name>) returns (sorted: seq<Name>)
    requires forall i, j :: 0 <= i < j < |list| ==> list[i] != list[j]
    ensures Ascending(sorted) && |sorted| == |list|
    ensures forall n :: n in sorted <==> n in list
  {
    sorted := [];
    for i := 0 to |list|
      invariant Ascending(sorted) && |sorted| == i
      invariant forall n :: n in sorted <==> n in list[..i]
    {
      assert list[..i + 1] == list[..i] + [list[i]];
      assert list[i] !in list[..i];
      sorted := InsertName(sorted, list[i]);
    }
    assert list[..|list|] == list;
  }

  method InsertName(list: seq<Name>, name: Name) returns (out: seq<Name>)
    requires Ascending(list) && name !in list
    ensures Ascending(out) && |out| == |list| + 1
    ensures forall n :: n in out <==> n in list || n == name
  {
    var k := 0;
    while k < |list| && Less(list[k], name)
      invariant k <= |list|
      invariant forall i :: 0 <= i < k ==> Less(list[i], name)
    {
      k := k + 1;
    }
    forall i | k <= i < |list| ensures Less(name, list[i]) {
      LessTotal(name, list[k]);
      assert list[k] in list;
      if i > k {
        LessTransitive(name, list[k], list[i]);
      }
    }
    out := list[..k] + [name] + list[k..];
    forall n ensures n in out <==> n in list || n == name {
      assert list == list[..k] + list[k..];
    }
  }

  class Spool {
    var files: set<Name>

    /** `prune`: collect the entries of a kind, sort them, delete all but the last `keep`. */
    method Prune(suffix: Name, keep: nat)
      modifies this
      ensures files == Pruned(old(files), suffix, keep)
    {
      ghost var dir := files;
      var entries := ReadDirectory(files);
      var list: seq<Name> := [];
      for i := 0 to |entries|
        invariant forall n :: n in list <==> n in entries[..i] && HasSuffix(n, suffix)
        invariant forall a, b :: 0 <= a < b < |list| ==> list[a] != list[b]
        invariant files == dir
      {
        var name := entries[i];
        assert entries[..i + 1] == entries[..i] + [name];
        assert name !in entries[..i];
        if |name| <= |suffix| || name[|name| - |suffix|..] != suffix || |name| >= NAME_SIZE { continue; }
        list := list + [name];
      }
      assert entries[..|entries|] == entries;
      var sorted := SortNames(list);
      ghost var others := set n | n in dir && !HasSuffix(n, suffix);
      assert dir == Elements(sorted) + others;
      PrunedIsLast(dir, suffix, keep, sorted, others);
      DeleteOldest(sorted, keep, others);
    }

    method DeleteOldest(sorted: seq<Name>, keep: nat, ghost others: set<Name>)
      requires Ascending(sorted) && files == Elements(sorted) + others && Elements(sorted) !! others
      modifies this
      ensures files == Elements(Last(sorted, keep)) + others
    {
      if |sorted| > keep {
        for i := 0 to |sorted| - keep
          invariant files == Elements(sorted[i..]) + others
        {
          forall k | i < k < |sorted| ensures sorted[k] != sorted[i] {
            LessAsymmetric(sorted[i], sorted[k]);
          }
          assert sorted[i..] == [sorted[i]] + sorted[i + 1..];
          assert sorted[i] in Elements(sorted);
          assert Elements(sorted[i..]) - {sorted[i]} == Elements(sorted[i + 1..]);
          files := files - {sorted[i]};
        }
      }
    }

    /** `main` from the naming of the files on. */
    method HandleCrash(cfg: Config, c: Crash)
      requires cfg.maxReports > 0
      modifies this
      ensures files == Handle(cfg, old(files), c)
    {
      Prune(CRASH, cfg.maxReports - 1);
      if cfg.keepCore && cfg.maxCores > 0 && c.dumpable && cfg.maxCoreMb > 0 && c.coreWritten {
        files := files + {CoreName(c.time, c.pid)};
        Prune(CORE, cfg.maxCores);
      }
      if c.reportWritten {
        files := files + {ReportName(c.time, c.pid)};
      }
    }
  }
}
