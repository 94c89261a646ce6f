/** File names of the crash spool: zero-padded times, and byte order as time order. */
module CrashNames {

  type Name = seq<char>

  /** `strcmp(a, b) < 0`. */
  predicate Less(a: Name, b: Name)
    decreases |a|
  {
    if b == [] then false
    else if a == [] then true
    else if a[0] != b[0] then a[0] < b[0]
    else Less(a[1..], b[1..])
  }

  lemma {:induction false} LessIrreflexive(a: Name)
    ensures !Less(a, a)
    decreases |a|
  {
    if a != [] {
      LessIrreflexive(a[1..]);
    }
  }

  lemma {:induction false} LessTransitive(a: Name, b: Name, c: Name)
    requires Less(a, b) && Less(b, c)
    ensures Less(a, c)
    decreases |a|
  {
    if a != [] && a[0] == b[0] && b[0] == c[0] {
      LessTransitive(a[1..], b[1..], c[1..]);
    }
  }

  lemma {:induction false} LessTotal(a: Name, b: Name)
    ensures a == b || Less(a, b) || Less(b, a)
    decreases |a|
  {
    if a != [] && b != [] && a[0] == b[0] {
      LessTotal(a[1..], b[1..]);
      assert a == [a[0]] + a[1..] && b == [b[0]] + b[1..];
    }
  }

  lemma LessAsymmetric(a: Name, b: Name)
    requires Less(a, b)
    ensures !Less(b, a) && a != b
  {
    LessIrreflexive(a);
    if Less(b, a) {
      LessTransitive(a, b, a);
    }
  }

  lemma {:induction false} LessCommonPrefix(p: Name, a: Name, b: Name)
    ensures Less(p + a, p + b) == Less(a, b)
    decreases |p|
  {
    if p == [] {
      assert p + a == a && p + b == b;
    } else {
      assert (p + a)[1..] == p[1..] + a && (p + b)[1..] == p[1..] + b;
      LessCommonPrefix(p[1..], a, b);
    }
  }

  function DigitChar(d: nat): char
    requires d < 10
  {
    (d + '0' as int) as char
  }

  /** The last `k` decimal digits of `n`. */
  function Pad(n: nat, k: nat): Name {
    if k == 0 then [] else Pad(n / 10, k - 1) + [DigitChar(n % 10)]
  }

  function Decimal(n: nat): Name {
    if n < 10 then [DigitChar(n)] else Decimal(n / 10) + [DigitChar(n % 10)]
  }

  function Pow10(k: nat): nat { if k == 0 then 1 else 10 * Pow10(k - 1) }

  const TIME_LIMIT := 10_000_000_000

  /** `printf("%010ld", n)` for a time that is not negative. */
  function PrintTime(n: nat): Name { if n < TIME_LIMIT then Pad(n, 10) else Decimal(n) }

  lemma Pow10Ten()
    ensures Pow10(10) == TIME_LIMIT
  {
    assert Pow10(5) == 100000;
    assert Pow10(10) == 10 * 10 * 10 * 10 * 10 * Pow10(5);
  }

  /** Among numbers of the same width, byte order is numeric order, whatever follows. */
  lemma {:induction false} PadOrder(a: nat, b: nat, k: nat, x: Name, y: Name)
    requires a < b < Pow10(k)
    ensures Less(Pad(a, k) + x, Pad(b, k) + y)
    decreases k
  {
    if k > 0 {
      var da, db := [DigitChar(a % 10)], [DigitChar(b % 10)];
      assert Pad(a, k) + x == Pad(a / 10, k - 1) + (da + x);
      assert Pad(b, k) + y == Pad(b / 10, k - 1) + (db + y);
      if a / 10 < b / 10 {
        PadOrder(a / 10, b / 10, k - 1, da + x, db + y);
      } else {
        assert a / 10 == b / 10 && a % 10 < b % 10;
        LessCommonPrefix(Pad(a / 10, k - 1), da + x, db + y);
      }
    }
  }

  lemma {:induction false} PadLength(n: nat, k: nat)
    ensures |Pad(n, k)| == k
    decreases k
  {
    if k > 0 {
      PadLength(n / 10, k - 1);
    }
  }

  lemma {:induction false} DecimalLength(n: nat, k: nat)
    requires n < Pow10(k)
    ensures 0 < |Decimal(n)| <= k + 1
    decreases k
  {
    if k > 0 && n >= 10 {
      DecimalLength(n / 10, k - 1);
    }
  }

  /** `base` in `main`. */
  function Base(time: nat, pid: nat): Name { PrintTime(time) + ['-'] + Decimal(pid) }

  function ReportName(time: nat, pid: nat): Name { Base(time, pid) + ".crash" }

  function CoreName(time: nat, pid: nat): Name { Base(time, pid) + ".core" }

  /** Byte order of names is time order below ten billion seconds. */
  lemma {:induction false} NamesInTimeOrder(a: nat, pa: nat, x: Name, b: nat, pb: nat, y: Name)
    requires a < b < TIME_LIMIT
    ensures Less(Base(a, pa) + x, Base(b, pb) + y)
  {
    Pow10Ten();
    var ta, tb := ['-'] + Decimal(pa) + x, ['-'] + Decimal(pb) + y;
    assert Base(a, pa) + x == Pad(a, 10) + ta;
    assert Base(b, pb) + y == Pad(b, 10) + tb;
    PadOrder(a, b, 10, ta, tb);
  }

  /** From then on it is not: eleven digits sort before ten nines. */
  lemma {:induction false} TimeOrderEnds(pa: nat, pb: nat, x: Name)
    ensures Less(Base(TIME_LIMIT, pb) + x, Base(TIME_LIMIT - 1, pa) + x)
  {
    FirstDigits();
    var later, earlier := Base(TIME_LIMIT, pb) + x, Base(TIME_LIMIT - 1, pa) + x;
    assert later[0] == '1' && earlier[0] == '9';
  }

  /** Whatever the processes, the names of time `a` sort before those of time `b`. */
  ghost predicate NamesOrdered(a: nat, b: nat) {
    forall pa: nat, pb: nat, x: Name :: Less(Base(a, pa) + x, Base(b, pb) + x)
  }

  /** All times up to `last` are in name order exactly when `last` has at most ten digits. */
  lemma TimeOrderExactly(last: nat)
    ensures (forall a: nat, b: nat :: a < b <= last ==> NamesOrdered(a, b)) <==> last < TIME_LIMIT
  {
    if last < TIME_LIMIT {
      forall a: nat, b: nat | a < b <= last ensures NamesOrdered(a, b) {
        forall pa: nat, pb: nat, x: Name ensures Less(Base(a, pa) + x, Base(b, pb) + x) {
          NamesInTimeOrder(a, pa, x, b, pb, x);
        }
      }
    } else {
      TimeOrderEnds(0, 0, []);
      LessAsymmetric(Base(TIME_LIMIT, 0) + [], Base(TIME_LIMIT - 1, 0) + []);
      assert !NamesOrdered(TIME_LIMIT - 1, TIME_LIMIT);
    }
  }

  lemma {:induction false} DecimalHead(n: nat, k: nat)
    requires Pow10(k) <= n < 2 * Pow10(k)
    ensures Decimal(n)[0] == '1'
    decreases k
  {
    if k > 0 {
      DecimalHead(n / 10, k - 1);
    }
  }

  lemma {:induction false} PadHead(n: nat, k: nat)
    requires 9 * Pow10(k) <= n < 10 * Pow10(k)
    ensures Pad(n, k + 1)[0] == '9'
    decreases k
  {
    if k > 0 {
      PadHead(n / 10, k - 1);
    }
  }

  lemma FirstDigits()
    ensures PrintTime(TIME_LIMIT)[0] == '1' && PrintTime(TIME_LIMIT - 1)[0] == '9'
  {
    Pow10Ten();
    DecimalHead(TIME_LIMIT, 10);
    assert Pow10(10) == 10 * Pow10(9);
    PadHead(TIME_LIMIT - 1, 9);
  }
}
