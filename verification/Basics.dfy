/** What all the models share. */
module Basics {

  datatype Option<+T> = None | Some(value: T)

  type byte = b: int | 0 <= b < 256

  const UINT32 := 0x1_0000_0000

  /** Index of the first occurrence of `x` at or after `i`, or -1. */
  function IndexFrom<T(==)>(s: seq<T>, x: T, i: nat): int
    decreases |s| - i
  {
    if i >= |s| then -1 else if s[i] == x then i else IndexFrom(s, x, i + 1)
  }

  lemma {:induction false} IndexFromSpec<T>(s: seq<T>, x: T, i: nat)
    requires i <= |s|
    ensures var r := IndexFrom(s, x, i);
            if r < 0 then r == -1 && x !in s[i..] else i <= r < |s| && s[r] == x && x !in s[i..r]
    decreases |s| - i
  {
    if i < |s| && s[i] != x {
      IndexFromSpec(s, x, i + 1);
      assert s[i..] == [s[i]] + s[i + 1..];
      var r := IndexFrom(s, x, i + 1);
      if r >= 0 {
        assert s[i..r] == [s[i]] + s[i + 1..r];
      }
    }
  }

  lemma ConcatAssoc<T>(a: seq<T>, b: seq<T>, c: seq<T>)
    ensures a + (b + c) == (a + b) + c
  {
  }
}
