/** C string primitives the firewall helper is built from, over byte strings. */
module CText {
  import opened Basics

  type Str = seq<char>

  /** `strchr` and `memchr` as an index: the first `c` in `s`, or -1. */
  function Index(s: Str, c: char): int { IndexFrom(s, c, 0) }

  lemma IndexSpec(s: Str, c: char)
    ensures var r := Index(s, c);
            if r < 0 then r == -1 && c !in s else r < |s| && s[r] == c && c !in s[..r]
  {
    IndexFromSpec(s, c, 0);
    assert s[0..] == s;
  }

  /** The first separator is where the prefix without it ends. */
  lemma IndexAt(a: Str, c: char, b: Str)
    requires c !in a
    ensures Index(a + [c] + b, c) == |a|
    ensures (a + [c] + b)[..|a|] == a && (a + [c] + b)[|a| + 1..] == b
  {
    var s := a + [c] + b;
    IndexSpec(s, c);
    assert s[|a|] == c;
    var r := Index(s, c);
    assert forall k :: 0 <= k < |a| ==> s[k] == a[k];
    assert forall k :: 0 <= k < r ==> s[..r][k] == s[k];
  }

  function SkipLeading(s: Str, c: char): Str
    decreases |s|
  {
    if s != [] && s[0] == c then SkipLeading(s[1..], c) else s
  }

  /** `strtok_r` with one delimiter: the next token and what is left behind it. */
  function Strtok(s: Str, c: char): (Option<Str>, Str) {
    var t := SkipLeading(s, c);
    if t == [] then (None, [])
    else
      var k := Index(t, c);
      IndexSpec(t, c);
      if k < 0 then (Some(t), []) else (Some(t[..k]), t[k + 1..])
  }

  lemma StrtokAt(a: Str, c: char, b: Str)
    requires a != [] && c !in a
    ensures Strtok(a + [c] + b, c) == (Some(a), b)
  {
    assert (a + [c] + b)[0] == a[0];
    IndexAt(a, c, b);
  }

  lemma StrtokLast(a: Str, c: char)
    requires a != [] && c !in a
    ensures Strtok(a, c) == (Some(a), [])
  {
    IndexSpec(a, c);
    assert a[0] in a;
  }

  predicate HasPrefix(s: Str, p: Str) { |p| <= |s| && s[..|p|] == p }

  lemma PrefixHead(s: Str, p: Str)
    requires p != []
    ensures HasPrefix(s, p) ==> s[0] == p[0]
  {
    if HasPrefix(s, p) {
      assert s[..|p|][0] == s[0];
    }
  }

  /** `snprintf(buf, size, "%s", s)`. */
  function Snprintf(s: Str, size: nat): Str
    requires size > 0
  {
    if |s| < size then s else s[..size - 1]
  }

  predicate IsDigit(c: char) { '0' <= c <= '9' }

  function Digit(c: char): nat
    requires IsDigit(c)
  {
    c as int - '0' as int
  }

  predicate AllDigits(s: Str) { forall i :: 0 <= i < |s| ==> IsDigit(s[i]) }

  /** The number a digit string denotes. */
  function Decimal(s: Str): nat
    requires AllDigits(s)
  {
    if s == [] then 0 else 10 * Decimal(s[..|s| - 1]) + Digit(s[|s| - 1])
  }
}
