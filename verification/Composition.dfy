/** Arranging all outputs on one canvas, left to right. */
module Composition {
  import opened Basics
  import opened Pixels

  // ---------------------------------------------------------------- order

  /** Output `a` stands before output `b`: further left, or first found at the same place. */
  predicate StandsBefore(xs: seq<int>, a: nat, b: nat)
    requires a < |xs| && b < |xs|
  {
    xs[a] < xs[b] || (xs[a] == xs[b] && a < b)
  }

  ghost predicate IsOrder(xs: seq<int>, order: seq<nat>) {
    && |order| == |xs|
    && (forall p :: 0 <= p < |order| ==> order[p] < |xs|)
    && (forall p, q :: 0 <= p < q < |order| ==> order[p] != order[q])
  }

  ghost predicate Arranged(xs: seq<int>, order: seq<nat>)
    requires IsOrder(xs, order)
  {
    forall p, q :: 0 <= p < q < |order| ==> StandsBefore(xs, order[p], order[q])
  }

  /** Outputs at the same place stay in the order they were found. */
  ghost predicate Stable(xs: seq<int>, order: seq<nat>)
    requires IsOrder(xs, order)
  {
    forall p, q :: 0 <= p < q < |order| && xs[order[p]] == xs[order[q]] ==> order[p] < order[q]
  }

  /** Positions from `from` on hold their final outputs. */
  ghost predicate Settled(xs: seq<int>, order: seq<nat>, from: int)
    requires IsOrder(xs, order)
  {
    forall p, q :: 0 <= p < q < |order| && from <= q ==> xs[order[p]] <= xs[order[q]]
  }

  /** No output before position `j` lies further right than the one at `j`. */
  ghost predicate Furthest(xs: seq<int>, order: seq<nat>, j: int)
    requires IsOrder(xs, order) && 0 <= j < |order|
  {
    forall p :: 0 <= p < j ==> xs[order[p]] <= xs[order[j]]
  }

  lemma SwapKeeps(xs: seq<int>, order: seq<nat>, j: nat, from: int)
    requires IsOrder(xs, order) && Stable(xs, order) && Settled(xs, order, from) && j + 1 < from && j + 1 < |order|
    requires Furthest(xs, order, j) && xs[order[j]] > xs[order[j + 1]]
    ensures var swapped := order[j := order[j + 1]][j + 1 := order[j]];
            IsOrder(xs, swapped) && Stable(xs, swapped) && Settled(xs, swapped, from) && Furthest(xs, swapped, j + 1)
  {
  }

  /** One pass of exchanges carries the rightmost of the first `from` outputs to the end. */
  method BubblePass(xs: seq<int>, order: array<nat>, from: nat)
    requires IsOrder(xs, order[..]) && Stable(xs, order[..]) && Settled(xs, order[..], from) && 0 < from <= order.Length
    modifies order
    ensures IsOrder(xs, order[..]) && Stable(xs, order[..]) && Settled(xs, order[..], from - 1)
  {
    var j := 0;
    while j < from - 1
      invariant 0 <= j <= from - 1
      invariant IsOrder(xs, order[..]) && Stable(xs, order[..]) && Settled(xs, order[..], from)
      invariant Furthest(xs, order[..], j)
    {
      if xs[order[j]] > xs[order[j + 1]] {
        ghost var before := order[..];
        SwapKeeps(xs, before, j, from);
        var t := order[j];
        order[j] := order[j + 1];
        order[j + 1] := t;
        assert order[..] == before[j := before[j + 1]][j + 1 := before[j]];
      }
      j := j + 1;
    }
  }

  /** The exchange sort of `capture_all`: a stable arrangement by horizontal position. */
  method SortOutputs(xs: seq<int>) returns (order: array<nat>)
    ensures IsOrder(xs, order[..]) && Arranged(xs, order[..]) && fresh(order)
  {
    var n := |xs|;
    order := new nat[n](i => i);
    var i := 0;
    while i < n - 1
      invariant 0 <= i <= n && (n == 0 || i < n)
      invariant IsOrder(xs, order[..]) && Stable(xs, order[..]) && Settled(xs, order[..], n - i)
    {
      BubblePass(xs, order, n - i);
      i := i + 1;
    }
  }

  function Range(n: nat): set<nat> { if n == 0 then {} else Range(n - 1) + {n - 1} }

  lemma {:induction false} RangeSpec(n: nat)
    ensures |Range(n)| == n && forall k: nat :: k in Range(n) <==> k < n
    decreases n
  {
    if n > 0 {
      RangeSpec(n - 1);
    }
  }

  lemma {:induction false} DistinctSize(list: seq<nat>, s: set<nat>)
    requires forall p :: 0 <= p < |list| ==> list[p] in s
    requires forall p, q :: 0 <= p < q < |list| ==> list[p] != list[q]
    ensures |list| <= |s|
    decreases |list|
  {
    if list != [] {
      DistinctSize(list[1..], s - {list[0]});
    }
  }

  lemma MissingShortens(list: seq<nat>, n: nat, a: nat)
    requires forall p :: 0 <= p < |list| ==> list[p] < n && list[p] != a
    requires forall p, q :: 0 <= p < q < |list| ==> list[p] != list[q]
    requires a < n
    ensures |list| < n
  {
    RangeSpec(n);
    DistinctSize(list, Range(n) - {a});
  }

  /** The arrangement is a permutation: every output has exactly one place. */
  lemma EveryOutputPlaced(xs: seq<int>, order: seq<nat>, a: nat)
    requires IsOrder(xs, order) && a < |xs|
    ensures exists p :: 0 <= p < |order| && order[p] == a
  {
    if forall p :: 0 <= p < |order| ==> order[p] != a {
      MissingShortens(order, |xs|, a);
    }
  }

  lemma SamePlace(xs: seq<int>, a: seq<nat>, b: seq<nat>, p: nat)
    requires IsOrder(xs, a) && Arranged(xs, a) && IsOrder(xs, b) && Arranged(xs, b) && p < |a|
    requires forall q :: 0 <= q < p ==> a[q] == b[q]
    ensures a[p] == b[p]
  {
    EveryOutputPlaced(xs, b, a[p]);
    EveryOutputPlaced(xs, a, b[p]);
    var i :| 0 <= i < |b| && b[i] == a[p];
    var j :| 0 <= j < |a| && a[j] == b[p];
    assert i >= p && j >= p;
  }

  lemma {:induction false} SamePlaces(xs: seq<int>, a: seq<nat>, b: seq<nat>, n: nat)
    requires IsOrder(xs, a) && Arranged(xs, a) && IsOrder(xs, b) && Arranged(xs, b) && n <= |a|
    ensures forall q :: 0 <= q < n ==> a[q] == b[q]
    decreases n
  {
    if n > 0 {
      SamePlaces(xs, a, b, n - 1);
      SamePlace(xs, a, b, n - 1);
    }
  }

  /** Positions determine the arrangement: there is one order by place that is stable on ties. */
  lemma ArrangementUnique(xs: seq<int>, a: seq<nat>, b: seq<nat>)
    requires IsOrder(xs, a) && Arranged(xs, a) && IsOrder(xs, b) && Arranged(xs, b)
    ensures a == b
  {
    SamePlaces(xs, a, b, |a|);
  }

  // ---------------------------------------------------------------- the canvas

  function Widths(frames: seq<Frame>, order: seq<nat>, k: nat): nat
    requires k <= |order| && forall p :: 0 <= p < |order| ==> order[p] < |frames|
  {
    if k == 0 then 0 else Widths(frames, order, k - 1) + frames[order[k - 1]].width
  }

  lemma {:induction false} WidthsGrow(frames: seq<Frame>, order: seq<nat>, j: nat, k: nat)
    requires j <= k <= |order| && forall p :: 0 <= p < |order| ==> order[p] < |frames|
    ensures Widths(frames, order, j) <= Widths(frames, order, k)
    decreases k
  {
    if j < k {
      WidthsGrow(frames, order, j, k - 1);
    }
  }

  /** Index of byte `c` of pixel (x, y) on a canvas with rows of `stride` bytes. */
  function CanvasIndex(stride: nat, x: nat, y: nat, c: nat): nat { RowStart(4 * x + c, stride, y) }

  /** Within rows of `stride` bytes a byte has one row only. */
  lemma OneRow(stride: nat, a: nat, y: nat, b: nat, r: nat)
    requires a < stride && b < stride && RowStart(a, stride, y) == RowStart(b, stride, r)
    ensures y == r && a == b
  {
    if y < r {
      RowsApart(0, stride, y, r);
    } else if r < y {
      RowsApart(0, stride, r, y);
    }
  }

  /** A canvas byte outside the columns [x0, x0 + w) is in none of the rows copied there. */
  lemma OutsideColumns(total: nat, x0: nat, w: nat, h: nat, x: nat, y: nat, c: nat)
    requires x0 + w <= total && x < total && c < 4 && (x < x0 || x0 + w <= x || h <= y)
    ensures !InRows(CanvasIndex(4 * total, x, y, c), 4 * x0, 4 * total, 4 * w, h)
  {
    var k := CanvasIndex(4 * total, x, y, c);
    forall r | 0 <= r < h && RowStart(4 * x0, 4 * total, r) <= k < RowStart(4 * x0, 4 * total, r) + 4 * w ensures false {
      OneRow(4 * total, 4 * x + c, y, k - RowStart(0, 4 * total, r), r);
    }
  }

  lemma IndexInCanvas(total: nat, h: nat, x: nat, y: nat, c: nat)
    requires x < total && y < h && c < 4
    ensures CanvasIndex(4 * total, x, y, c) < Times(h, 4 * total)
  {
    TimesMono(y + 1, h, 4 * total);
  }

  // ---------------------------------------------------------------- painting

  predicate Indexes(order: seq<nat>, n: nat) { forall p :: 0 <= p < |order| ==> order[p] < n }

  /** What byte `c` of pixel (x, y) of a frame should become; below the frame nothing is painted. */
  function Expected(f: Frame, invert: bool, x: nat, y: nat, c: nat): byte
    requires Readable(f) && x < f.width && c < 4
  {
    if y < f.height then PictureOf(f)[if invert then f.height - 1 - y else y][x][c] else 0
  }

  /** The columns [x0, x0 + f.width) of the canvas show this frame. */
  ghost predicate Shows(canvas: seq<byte>, total: nat, height: nat, f: Frame, invert: bool, x0: nat) {
    && |canvas| == Times(height, 4 * total) && x0 + f.width <= total && Readable(f)
    && forall x, y, c :: x0 <= x < x0 + f.width && 0 <= y < height && 0 <= c < 4 ==>
         CanvasIndex(4 * total, x, y, c) < |canvas| &&
         canvas[CanvasIndex(4 * total, x, y, c)] == Expected(f, invert, x - x0, y, c)
  }

  /** Nothing has been painted from column `x0` on. */
  ghost predicate Blank(canvas: seq<byte>, total: nat, height: nat, x0: nat) {
    && |canvas| == Times(height, 4 * total)
    && forall x, y, c :: x0 <= x < total && 0 <= y < height && 0 <= c < 4 ==>
         CanvasIndex(4 * total, x, y, c) < |canvas| && canvas[CanvasIndex(4 * total, x, y, c)] == 0
  }

  /** Columns left of `limit` hold the same bytes. */
  ghost predicate SameLeft(before: seq<byte>, after: seq<byte>, total: nat, height: nat, limit: nat) {
    |after| == |before| &&
    forall x, y, c :: 0 <= x < limit && 0 <= y < height && 0 <= c < 4 ==>
      CanvasIndex(4 * total, x, y, c) < |after| &&
      after[CanvasIndex(4 * total, x, y, c)] == before[CanvasIndex(4 * total, x, y, c)]
  }

  /** A byte of a row of pixels is a byte of one of its pixels. */
  lemma FlattenByte(row: seq<Pixel>, x: nat, c: nat)
    requires x < |row| && c < 4
    ensures Flatten(row)[4 * x + c] == row[x][c]
  {
    FlattenAt(row, x);
    assert Flatten(row)[4 * x..4 * x + 4][c] == Flatten(row)[4 * x + c];
  }

  /** The byte of pixel `x` in a row copied to `start`. */
  lemma RowByte(canvas: seq<byte>, start: nat, row: seq<Pixel>, x: nat, c: nat)
    requires start + 4 * |row| <= |canvas| && canvas[start..start + 4 * |row|] == Flatten(row) && x < |row| && c < 4
    ensures canvas[start + 4 * x + c] == row[x][c]
  {
    FlattenByte(row, x, c);
    assert canvas[start..start + 4 * |row|][4 * x + c] == canvas[start + 4 * x + c];
  }

  lemma WholeRowAt(p: Picture, width: nat, invert: bool, y: nat)
    requires IsPicture(p, width, |p|) && y < |p|
    ensures RegionRows(p, 0, 0, width, |p|, invert)[y] == Flatten(p[ReadRow(|p|, y, invert)])
  {
    var row := p[ReadRow(|p|, y, invert)];
    assert row[0..width] == row;
  }

  /** The rows of a copied frame, pixel by pixel. */
  lemma RowsShow(before: seq<byte>, canvas: seq<byte>, total: nat, f: Frame, rows: seq<seq<byte>>, invert: bool, x0: nat, x: nat, y: nat, c: nat)
    requires Readable(f) && x < f.width && y < f.height && c < 4
    requires rows == RegionRows(PictureOf(f), 0, 0, f.width, f.height, invert)
    requires Copied(before, canvas, 4 * x0, 4 * total, f.width, rows, f.height)
    ensures CanvasIndex(4 * total, x0 + x, y, c) < |canvas|
    ensures canvas[CanvasIndex(4 * total, x0 + x, y, c)] == Expected(f, invert, x, y, c)
  {
    var row := PictureOf(f)[ReadRow(f.height, y, invert)];
    WholeRowAt(PictureOf(f), f.width, invert, y);
    RowByte(canvas, RowStart(4 * x0, 4 * total, y), row, x, c);
  }

  /** A copied frame leaves the columns beside it alone. */
  lemma PaintBeside(before: seq<byte>, after: seq<byte>, total: nat, height: nat, f: Frame, rows: seq<seq<byte>>, x0: nat)
    requires x0 + f.width <= total
    requires Blank(before, total, height, x0) && Copied(before, after, 4 * x0, 4 * total, f.width, rows, f.height)
    ensures Blank(after, total, height, x0 + f.width)
    ensures SameLeft(before, after, total, height, x0)
  {
    forall x, y, c | 0 <= x < total && (x < x0 || x0 + f.width <= x) && 0 <= y < height && 0 <= c < 4
      ensures CanvasIndex(4 * total, x, y, c) < |after|
      ensures after[CanvasIndex(4 * total, x, y, c)] == before[CanvasIndex(4 * total, x, y, c)]
    {
      IndexInCanvas(total, height, x, y, c);
      OutsideColumns(total, x0, f.width, f.height, x, y, c);
    }
  }

  /** Painting a frame at `x0`: its columns show it, other columns keep what they had. */
  lemma PaintStep(before: seq<byte>, after: seq<byte>, total: nat, height: nat, f: Frame, rows: seq<seq<byte>>, invert: bool, x0: nat)
    requires Readable(f) && f.height <= height && x0 + f.width <= total
    requires rows == RegionRows(PictureOf(f), 0, 0, f.width, f.height, invert)
    requires Blank(before, total, height, x0) && Copied(before, after, 4 * x0, 4 * total, f.width, rows, f.height)
    ensures Shows(after, total, height, f, invert, x0)
    ensures Blank(after, total, height, x0 + f.width)
    ensures SameLeft(before, after, total, height, x0)
  {
    PaintBeside(before, after, total, height, f, rows, x0);
    forall x, y, c | x0 <= x < x0 + f.width && 0 <= y < height && 0 <= c < 4
      ensures CanvasIndex(4 * total, x, y, c) < |after|
      ensures after[CanvasIndex(4 * total, x, y, c)] == Expected(f, invert, x - x0, y, c)
    {
      IndexInCanvas(total, height, x, y, c);
      if y < f.height {
        RowsShow(before, after, total, f, rows, invert, x0, x - x0, y, c);
      } else {
        OutsideColumns(total, x0, f.width, f.height, x, y, c);
      }
    }
  }

  /** What was shown further left is still shown. */
  lemma StillShows(before: seq<byte>, after: seq<byte>, total: nat, height: nat, f: Frame, invert: bool, x0: nat, limit: nat)
    requires Shows(before, total, height, f, invert, x0) && x0 + f.width <= limit <= total && |after| == |before|
    requires SameLeft(before, after, total, height, limit)
    ensures Shows(after, total, height, f, invert, x0)
  {
  }

  ghost predicate Painted(canvas: seq<byte>, total: nat, height: nat, frames: seq<Frame>, inverted: seq<bool>, order: seq<nat>, k: nat)
    requires |inverted| == |frames| && Indexes(order, |frames|) && k <= |order|
  {
    && Blank(canvas, total, height, Widths(frames, order, k))
    && forall j :: 0 <= j < k ==>
         Shows(canvas, total, height, frames[order[j]], inverted[order[j]], Widths(frames, order, j))
  }

  // ---------------------------------------------------------------- the total width

  function SumWidths(frames: seq<Frame>, n: nat): nat
    requires n <= |frames|
  {
    if n == 0 then 0 else SumWidths(frames, n - 1) + frames[n - 1].width
  }

  lemma {:induction false} WidthsConcat(frames: seq<Frame>, a: seq<nat>, b: seq<nat>)
    requires Indexes(a, |frames|) && Indexes(b, |frames|)
    ensures Indexes(a + b, |frames|)
    ensures Widths(frames, a + b, |a + b|) == Widths(frames, a, |a|) + Widths(frames, b, |b|)
    decreases |b|
  {
    if b == [] {
      assert a + b == a;
    } else {
      var init := b[..|b| - 1];
      WidthsConcat(frames, a, init);
      WidthsPrefix(frames, a + b, a + init, |a + init|);
      WidthsPrefix(frames, b, init, |init|);
    }
  }

  lemma {:induction false} WidthsPrefix(frames: seq<Frame>, order: seq<nat>, other: seq<nat>, k: nat)
    requires k <= |order| && k <= |other| && Indexes(order, |frames|) && Indexes(other, |frames|)
    requires forall p :: 0 <= p < k ==> order[p] == other[p]
    ensures Widths(frames, order, k) == Widths(frames, other, k)
    decreases k
  {
    if k > 0 {
      WidthsPrefix(frames, order, other, k - 1);
    }
  }

  lemma {:induction false} RemoveAt(order: seq<nat>, p: nat, n: nat)
    requires |order| == n && Indexes(order, n) && p < n && order[p] == n - 1
    requires forall i, j :: 0 <= i < j < n ==> order[i] != order[j]
    ensures var rest := order[..p] + order[p + 1..];
            |rest| == n - 1 && Indexes(rest, n - 1) && forall i, j :: 0 <= i < j < n - 1 ==> rest[i] != rest[j]
  {
    var rest := order[..p] + order[p + 1..];
    assert forall i :: 0 <= i < |rest| ==> rest[i] == order[if i < p then i else i + 1];
  }

  lemma {:induction false} WidthsInsert(frames: seq<Frame>, a: seq<nat>, i: nat, b: seq<nat>)
    requires Indexes(a, |frames|) && Indexes(b, |frames|) && i < |frames|
    ensures Indexes(a + b, |frames|) && Indexes(a + [i] + b, |frames|)
    ensures Widths(frames, a + [i] + b, |a| + 1 + |b|) == Widths(frames, a + b, |a| + |b|) + frames[i].width
  {
    WidthsConcat(frames, a, b);
    WidthsConcat(frames, a, [i]);
    WidthsConcat(frames, a + [i], b);
    assert Widths(frames, [i], 1) == Widths(frames, [i], 0) + frames[i].width;
  }

  lemma {:induction false} SplitAt(order: seq<nat>, p: nat)
    requires p < |order|
    ensures order == order[..p] + [order[p]] + order[p + 1..]
  {
  }

  lemma {:induction false} WidthsWithout(frames: seq<Frame>, order: seq<nat>, p: nat)
    requires Indexes(order, |frames|) && p < |order|
    ensures Indexes(order[..p] + order[p + 1..], |frames|)
    ensures Widths(frames, order, |order|) ==
            Widths(frames, order[..p] + order[p + 1..], |order| - 1) + frames[order[p]].width
  {
    SplitAt(order, p);
    WidthsInsert(frames, order[..p], order[p], order[p + 1..]);
  }

  /** Whatever the order, the columns taken add up to the total width. */
  lemma {:induction false} WidthsAddUp(frames: seq<Frame>, order: seq<nat>, n: nat)
    requires n <= |frames| && |order| == n && Indexes(order, n)
    requires forall p, q :: 0 <= p < q < n ==> order[p] != order[q]
    ensures Indexes(order, |frames|) && Widths(frames, order, n) == SumWidths(frames, n)
    decreases n
  {
    if n > 0 {
      if forall p :: 0 <= p < n ==> order[p] != n - 1 {
        MissingShortens(order, n, n - 1);
      }
      var p :| 0 <= p < n && order[p] == n - 1;
      RemoveAt(order, p, n);
      WidthsAddUp(frames, order[..p] + order[p + 1..], n - 1);
      WidthsWithout(frames, order, p);
    }
  }

  // ---------------------------------------------------------------- capture_all

  ghost predicate AllCaptured(frames: seq<Frame>) { forall i :: 0 <= i < |frames| ==> Captured(frames[i]) }

  ghost predicate IsHeight(frames: seq<Frame>, n: nat, height: nat)
    requires n <= |frames|
  {
    && (forall k :: 0 <= k < n ==> frames[k].height <= height)
    && (height == 0 || exists k :: 0 <= k < n && frames[k].height == height)
  }

  /** What is left of a number in 32 bits. */
  function Wrap32(n: nat): nat { n % UINT32 }

  /** Total width, in 32 bits, and greatest height. */
  method Measure(frames: seq<Frame>) returns (width: nat, height: nat)
    ensures width == Wrap32(SumWidths(frames, |frames|)) && IsHeight(frames, |frames|, height)
  {
    width, height := 0, 0;
    for i := 0 to |frames|
      invariant width == Wrap32(SumWidths(frames, i)) && IsHeight(frames, i, height)
    {
      width := Add32(width, frames[i].width);
      if frames[i].height > height { height := frames[i].height; }
    }
  }

  /** The row size of a canvas for `total` columns, as computed. */
  function CanvasStride(total: nat): nat { Mul32(Wrap32(total), 4) }

  lemma CanvasStrideIs(total: nat)
    ensures CanvasStride(total) == 4 * total % UINT32
    ensures 4 * total < UINT32 ==> CanvasStride(total) == 4 * total && Wrap32(total) == total
  {
    var q, r := total / UINT32, total % UINT32;
    TimesIsProduct(r, 4);
    Remainder(4 * r, 4 * r / UINT32, 4 * r % UINT32);
    Remainder(4 * total, 4 * q + 4 * r / UINT32, 4 * r % UINT32);
  }

  lemma Remainder(n: nat, q: nat, m: nat)
    requires n == q * UINT32 + m && m < UINT32
    ensures n % UINT32 == m
  {
  }

  /** The canvas has room for all columns exactly when their size fits 32 bits. */
  lemma CanvasHoldsAllExactly(total: nat, height: nat)
    requires height > 0
    ensures Times(height, CanvasStride(total)) == Times(height, 4 * total) <==> 4 * total < UINT32
  {
    CanvasStrideIs(total);
    TimesIsProduct(height, CanvasStride(total));
    TimesIsProduct(height, 4 * total);
  }

  /** Otherwise frames can pass the checks and be painted outside it: five outputs of 2^28
      pixels make a canvas as wide as one of them. */
  lemma WrappedCanvasPassesChecks(data: seq<byte>)
    requires |data| == 0x4000_0000
    ensures var f := Frame(XRGB8888, 0x1000_0000, 1, 0x4000_0000, data, true);
            var stride := CanvasStride(5 * f.width);
            && Captured(f) && CopyAllowed(f, 0, 0, f.width, f.height, stride)
            && PaintedOutside(f, Times(f.height, stride), stride, 4 * f.width)
  {
    CanvasStrideIs(5 * 0x1000_0000);
    TimesIsProduct(0x1000_0000, 4);
    assert Times(1, 0x4000_0000) == 0x4000_0000;
  }

  lemma {:induction false} ColumnsLeftOf(frames: seq<Frame>, order: seq<nat>, j: nat, k: nat)
    requires Indexes(order, |frames|) && j < k <= |order|
    ensures Widths(frames, order, j) + frames[order[j]].width <= Widths(frames, order, k)
  {
    WidthsGrow(frames, order, j + 1, k);
  }

  lemma {:induction false} PaintedStep(before: seq<byte>, after: seq<byte>, total: nat, height: nat,
                    frames: seq<Frame>, inverted: seq<bool>, order: seq<nat>, k: nat)
    requires |inverted| == |frames| && Indexes(order, |frames|) && k < |order| && Widths(frames, order, k) <= total
    requires Painted(before, total, height, frames, inverted, order, k)
    requires Shows(after, total, height, frames[order[k]], inverted[order[k]], Widths(frames, order, k))
    requires Blank(after, total, height, Widths(frames, order, k + 1))
    requires SameLeft(before, after, total, height, Widths(frames, order, k))
    ensures Painted(after, total, height, frames, inverted, order, k + 1)
  {
    forall j | 0 <= j < k
      ensures Shows(after, total, height, frames[order[j]], inverted[order[j]], Widths(frames, order, j))
    {
      ColumnsLeftOf(frames, order, j, k);
      StillShows(before, after, total, height, frames[order[j]], inverted[order[j]], Widths(frames, order, j), Widths(frames, order, k));
    }
  }

  /** The frame at place `k` passes the checks of the copy. */
  predicate Accepted(frames: seq<Frame>, order: seq<nat>, k: nat, stride: nat)
    requires k < |order| && order[k] < |frames|
  {
    var f := frames[order[k]];
    CopyAllowed(f, 0, 0, f.width, f.height, stride)
  }

  predicate AllAccepted(frames: seq<Frame>, order: seq<nat>, stride: nat)
    requires Indexes(order, |frames|)
  {
    forall k :: 0 <= k < |order| ==> Accepted(frames, order, k, stride)
  }

  lemma {:induction false} NextFits(frames: seq<Frame>, order: seq<nat>, k: nat, width: nat, height: nat)
    requires AllCaptured(frames) && Indexes(order, |frames|) && k < |order|
    requires Widths(frames, order, |order|) == width && IsHeight(frames, |frames|, height)
    ensures Captured(frames[order[k]]) && frames[order[k]].height <= height && Widths(frames, order, k + 1) <= width
  {
    WidthsGrow(frames, order, k + 1, |order|);
  }

  /** Copying the frame to column `x0` of a canvas leaves the frame's mapping or the canvas. */
  predicate PaintedOutside(f: Frame, length: nat, stride: nat, x0: nat) {
    !RowFits(f) || !RowsFit(4 * x0, stride, 4 * f.width, f.height, length)
  }

  /** On a canvas that holds all columns no accepted frame is painted outside. */
  lemma PaintedInside(f: Frame, total: nat, height: nat, x0: nat)
    requires f.height <= height && x0 + f.width <= total && 4 * total < UINT32
    ensures !PaintedOutside(f, Times(height, 4 * total), 4 * total, x0)
  {
    TimesIsProduct(f.width, BytesPerPixel(f.format));
    TimesMono(f.height, height, 4 * total);
  }

  /** The rows a copy of a whole frame writes. */
  ghost function WholeRows(f: Frame, invert: bool): seq<seq<byte>>
    requires Readable(f)
  {
    RegionRows(PictureOf(f), 0, 0, f.width, f.height, invert)
  }

  /** One frame copied to column `x0`. */
  method PaintFrame(f: Frame, invert: bool, canvas: array<byte>, stride: nat, x0: nat) returns (outcome: Outcome)
    requires Captured(f)
    modifies canvas
    ensures outcome == Refused <==> !CopyAllowed(f, 0, 0, f.width, f.height, stride)
    ensures outcome == Overrun <==> CopyAllowed(f, 0, 0, f.width, f.height, stride) && PaintedOutside(f, canvas.Length, stride, x0)
    ensures outcome == Written ==>
              && Readable(f)
              && (4 * f.width <= stride ==>
                  Copied(old(canvas[..]), canvas[..], 4 * x0, stride, f.width, WholeRows(f, invert), f.height))
  {
    // Not a test of the program's: an accepted copy leaves its memory here.
    if CopyAllowed(f, 0, 0, f.width, f.height, stride) {
      if PaintedOutside(f, canvas.Length, stride, x0) { return Overrun; }
      ChecksMeanFit(f, 0, 0, f.width, f.height, stride);
      FrameRowsShow(f, 0, 0, f.width, f.height, invert);
    }
    ghost var before := canvas[..];
    var ok := CopyRegion(f, 0, 0, f.width, f.height, invert, canvas, 4 * x0, stride);
    if ok && 4 * f.width <= stride {
      WriteRowsCopies(before, 4 * x0, stride, f.width, WholeRows(f, invert), f.height);
    }
    return if ok then Written else Refused;
  }

  // ---------------------------------------------------------------- how painting ends

  /** The frame at place `k`, copied to the column its predecessors lead to in 32 bits, leaves its
      memory. */
  predicate Outside(frames: seq<Frame>, order: seq<nat>, k: nat, length: nat, stride: nat)
    requires Indexes(order, |frames|) && k < |order|
  {
    PaintedOutside(frames[order[k]], length, stride, Wrap32(Widths(frames, order, k)))
  }

  predicate Passes(frames: seq<Frame>, order: seq<nat>, k: nat, length: nat, stride: nat)
    requires Indexes(order, |frames|) && k < |order|
  {
    Accepted(frames, order, k, stride) && !Outside(frames, order, k, length, stride)
  }

  /** How painting from place `k` on ends. */
  function Fate(frames: seq<Frame>, order: seq<nat>, k: nat, length: nat, stride: nat): Outcome
    requires Indexes(order, |frames|) && k <= |order|
    decreases |order| - k
  {
    if k == |order| then Written
    else if !Accepted(frames, order, k, stride) then Refused
    else if Outside(frames, order, k, length, stride) then Overrun
    else Fate(frames, order, k + 1, length, stride)
  }

  /** Place `k` is the first from `from` on at which painting does not go on. */
  ghost predicate StopsAt(frames: seq<Frame>, order: seq<nat>, from: nat, k: nat, length: nat, stride: nat)
    requires Indexes(order, |frames|)
  {
    && from <= k < |order| && !Passes(frames, order, k, length, stride)
    && forall j :: from <= j < k ==> Passes(frames, order, j, length, stride)
  }

  /** The first frame that fails the checks or leaves its memory decides: painting is refused or
      goes astray exactly when that frame does, and succeeds exactly when there is none. */
  lemma {:induction false} FateExactly(frames: seq<Frame>, order: seq<nat>, from: nat, length: nat, stride: nat)
    requires Indexes(order, |frames|) && from <= |order|
    ensures Fate(frames, order, from, length, stride) == Written <==>
            forall k :: from <= k < |order| ==> Passes(frames, order, k, length, stride)
    ensures Fate(frames, order, from, length, stride) == Refused <==>
            exists k :: StopsAt(frames, order, from, k, length, stride) && !Accepted(frames, order, k, stride)
    ensures Fate(frames, order, from, length, stride) == Overrun <==>
            exists k :: StopsAt(frames, order, from, k, length, stride) && Accepted(frames, order, k, stride)
    decreases |order| - from
  {
    if from < |order| {
      if Passes(frames, order, from, length, stride) {
        FateExactly(frames, order, from + 1, length, stride);
        forall k: nat ensures StopsAt(frames, order, from, k, length, stride) <==> StopsAt(frames, order, from + 1, k, length, stride) {
          StopsLater(frames, order, from, k, length, stride);
        }
      } else {
        assert StopsAt(frames, order, from, from, length, stride);
        forall k | StopsAt(frames, order, from, k, length, stride) ensures k == from {
          StopsFirst(frames, order, from, k, length, stride);
        }
      }
    }
  }

  lemma StopsLater(frames: seq<Frame>, order: seq<nat>, from: nat, k: nat, length: nat, stride: nat)
    requires Indexes(order, |frames|) && from < |order| && Passes(frames, order, from, length, stride)
    ensures StopsAt(frames, order, from, k, length, stride) <==> StopsAt(frames, order, from + 1, k, length, stride)
  {
  }

  lemma StopsFirst(frames: seq<Frame>, order: seq<nat>, from: nat, k: nat, length: nat, stride: nat)
    requires Indexes(order, |frames|) && from < |order| && !Passes(frames, order, from, length, stride)
    requires StopsAt(frames, order, from, k, length, stride)
    ensures k == from
  {
  }

  /** The columns of all frames fit 32 bits, and so the canvas has room for them. */
  ghost predicate Roomy(frames: seq<Frame>, order: seq<nat>, length: nat, stride: nat, width: nat, height: nat)
    requires Indexes(order, |frames|)
  {
    && 4 * width < UINT32 && stride == 4 * width && length == Times(height, stride)
    && Widths(frames, order, |order|) == width && IsHeight(frames, |frames|, height)
  }

  lemma {:induction false} RoomyColumn(frames: seq<Frame>, order: seq<nat>, k: nat, length: nat, stride: nat, width: nat, height: nat)
    requires Indexes(order, |frames|) && k <= |order| && Roomy(frames, order, length, stride, width, height)
    ensures Wrap32(Widths(frames, order, k)) == Widths(frames, order, k) <= width
  {
    WidthsGrow(frames, order, k, |order|);
    Wrap32Exact(Widths(frames, order, k));
  }

  lemma {:induction false} RoomyInside(frames: seq<Frame>, order: seq<nat>, k: nat, length: nat, stride: nat, width: nat, height: nat)
    requires AllCaptured(frames) && Indexes(order, |frames|) && k < |order| && Roomy(frames, order, length, stride, width, height)
    ensures !Outside(frames, order, k, length, stride)
  {
    NextFits(frames, order, k, width, height);
    RoomyColumn(frames, order, k, length, stride, width, height);
    PaintedInside(frames[order[k]], width, height, Widths(frames, order, k));
  }

  /** On a roomy canvas nothing goes astray, and painting succeeds exactly when all frames pass
      the checks. */
  lemma {:induction false} RoomyFate(frames: seq<Frame>, order: seq<nat>, length: nat, stride: nat, width: nat, height: nat)
    requires AllCaptured(frames) && Indexes(order, |frames|) && Roomy(frames, order, length, stride, width, height)
    ensures Fate(frames, order, 0, length, stride) != Overrun
    ensures Fate(frames, order, 0, length, stride) == Written <==> AllAccepted(frames, order, stride)
  {
    FateExactly(frames, order, 0, length, stride);
    forall k | 0 <= k < |order|
      ensures Passes(frames, order, k, length, stride) <==> Accepted(frames, order, k, stride)
    {
      RoomyInside(frames, order, k, length, stride, width, height);
    }
  }

  /** Addition in 32 bits. */
  function Add32(a: nat, b: nat): nat { Wrap32(a + b) }

  lemma Wrap32Exact(n: nat)
    requires n < UINT32
    ensures Wrap32(n) == n
  {
  }

  lemma Add32Wraps(a: nat, b: nat)
    ensures Add32(Wrap32(a), b) == Wrap32(a + b)
  {
    var q, r := a / UINT32, a % UINT32;
    Remainder(r + b, (r + b) / UINT32, (r + b) % UINT32);
    Remainder(a + b, q + (r + b) / UINT32, (r + b) % UINT32);
  }

  // ---------------------------------------------------------------- the painting loop

  /** The frame at place `k` is painted after those before it. */
  method PaintNext(frames: seq<Frame>, inverted: seq<bool>, order: seq<nat>, k: nat, canvas: array<byte>, stride: nat, xOff: nat,
                   ghost roomy: bool, ghost width: nat, ghost height: nat)
    returns (outcome: Outcome, next: nat)
    requires |inverted| == |frames| && AllCaptured(frames) && Indexes(order, |frames|) && k < |order|
    requires xOff == Wrap32(Widths(frames, order, k))
    requires roomy ==> Roomy(frames, order, canvas.Length, stride, width, height)
    requires roomy ==> Painted(canvas[..], width, height, frames, inverted, order, k)
    modifies canvas
    ensures next == Wrap32(Widths(frames, order, k + 1))
    ensures outcome == Refused <==> !Accepted(frames, order, k, stride)
    ensures outcome == Overrun <==> Accepted(frames, order, k, stride) && Outside(frames, order, k, canvas.Length, stride)
    ensures roomy && outcome == Written ==> Painted(canvas[..], width, height, frames, inverted, order, k + 1)
  {
    ghost var before := canvas[..];
    outcome := PaintFrame(frames[order[k]], inverted[order[k]], canvas, stride, xOff);
    next := Add32(xOff, frames[order[k]].width);
    Add32Wraps(Widths(frames, order, k), frames[order[k]].width);
    if roomy && outcome == Written {
      NextFits(frames, order, k, width, height);
      RoomyColumn(frames, order, k, canvas.Length, stride, width, height);
      NextPainted(before, canvas[..], width, height, frames, inverted, order, k);
    }
  }

  /** A frame copied to the next free columns is painted, and the frames before it still are. */
  lemma {:induction false} NextPainted(before: seq<byte>, after: seq<byte>, width: nat, height: nat,
                                       frames: seq<Frame>, inverted: seq<bool>, order: seq<nat>, k: nat)
    requires |inverted| == |frames| && Indexes(order, |frames|) && k < |order| && Widths(frames, order, k + 1) <= width
    requires Painted(before, width, height, frames, inverted, order, k)
    requires Readable(frames[order[k]]) && frames[order[k]].height <= height
    requires Copied(before, after, 4 * Widths(frames, order, k), 4 * width, frames[order[k]].width,
                    WholeRows(frames[order[k]], inverted[order[k]]), frames[order[k]].height)
    ensures Painted(after, width, height, frames, inverted, order, k + 1)
  {
    var f, invert, x0 := frames[order[k]], inverted[order[k]], Widths(frames, order, k);
    PaintStep(before, after, width, height, f, WholeRows(f, invert), invert, x0);
    PaintedStep(before, after, width, height, frames, inverted, order, k);
  }

  /** The painting loop stops at the first frame that fails the checks or leaves its memory.  On
      a roomy canvas every frame is painted in its own columns when it does not stop. */
  method PaintAll(frames: seq<Frame>, inverted: seq<bool>, order: seq<nat>, canvas: array<byte>, stride: nat,
                  ghost roomy: bool, ghost width: nat, ghost height: nat)
    returns (outcome: Outcome)
    requires |inverted| == |frames| && AllCaptured(frames) && Indexes(order, |frames|)
    requires roomy ==> Roomy(frames, order, canvas.Length, stride, width, height) && Blank(canvas[..], width, height, 0)
    modifies canvas
    ensures outcome == Fate(frames, order, 0, canvas.Length, stride)
    ensures roomy && outcome == Written ==> Painted(canvas[..], width, height, frames, inverted, order, |order|)
  {
    var xOff: nat := 0;
    ghost var fate := Fate(frames, order, 0, canvas.Length, stride);
    for k := 0 to |order|
      invariant xOff == Wrap32(Widths(frames, order, k)) && fate == Fate(frames, order, k, canvas.Length, stride)
      invariant roomy ==> Painted(canvas[..], width, height, frames, inverted, order, k)
    {
      outcome, xOff := PaintNext(frames, inverted, order, k, canvas, stride, xOff, roomy, width, height);
      if outcome != Written { return; }
    }
    outcome := Written;
  }

  /** `capture_all` once the frames have been captured: sort, measure, paint.  It ends as the first
      frame decides that fails the checks or leaves its memory.  When the size of a canvas row fits
      32 bits, it is refused exactly when some frame fails the checks, and otherwise shows the
      frames side by side in order, with nothing below a frame shorter than the canvas. */
  method ComposeAll(frames: seq<Frame>, inverted: seq<bool>, xs: seq<int>)
    returns (outcome: Outcome, canvas: array<byte>, order: seq<nat>, width: nat, height: nat)
    requires |frames| == |inverted| == |xs| && AllCaptured(frames)
    ensures IsOrder(xs, order) && Arranged(xs, order)
    ensures width == Wrap32(SumWidths(frames, |frames|)) && IsHeight(frames, |frames|, height)
    ensures SumWidths(frames, |frames|) == Widths(frames, order, |frames|)
    ensures canvas.Length == Times(height, CanvasStride(SumWidths(frames, |frames|)))
    ensures outcome == Fate(frames, order, 0, canvas.Length, CanvasStride(SumWidths(frames, |frames|)))
    ensures 4 * SumWidths(frames, |frames|) < UINT32 ==>
              && outcome != Overrun && (outcome == Written <==> AllAccepted(frames, order, 4 * width))
              && (outcome == Written ==> Painted(canvas[..], width, height, frames, inverted, order, |frames|))
  {
    var places := SortOutputs(xs);
    order := places[..];
    width, height := Measure(frames);
    var stride := Mul32(width, 4);
    canvas := BlankCanvas(stride, height);
    WidthsAddUp(frames, order, |frames|);
    ghost var total := SumWidths(frames, |frames|);
    ghost var roomy := 4 * total < UINT32;
    CanvasStrideIs(total);
    if roomy {
      BlankIsBlank(canvas[..], total, height);
      RoomyFate(frames, order, canvas.Length, stride, total, height);
    }
    outcome := PaintAll(frames, inverted, order, canvas, stride, roomy, total, height);
  }

  method BlankCanvas(stride: nat, height: nat) returns (canvas: array<byte>)
    ensures canvas.Length == Times(height, stride) && fresh(canvas)
    ensures forall k :: 0 <= k < canvas.Length ==> canvas[k] == 0
  {
    canvas := new byte[Times(height, stride)](_ => 0);
  }

  lemma BlankIsBlank(canvas: seq<byte>, width: nat, height: nat)
    requires |canvas| == Times(height, 4 * width) && forall k :: 0 <= k < |canvas| ==> canvas[k] == 0
    ensures Blank(canvas, width, height, 0)
  {
    forall x, y, c | 0 <= x < width && 0 <= y < height && 0 <= c < 4
      ensures CanvasIndex(4 * width, x, y, c) < |canvas|
    {
      IndexInCanvas(width, height, x, y, c);
    }
  }
}
