/** Capturing a region: which output it is taken from, and which part of that output's frame. */
module Regions {
  import opened Basics
  import opened Pixels

  // ---------------------------------------------------------------- the output

  datatype Output = Output(x: int, y: int, scale: int, xdgDone: bool, logicalW: int, logicalH: int, modeW: int, modeH: int)

  /** Division as C does it, toward zero. */
  function Quotient(a: int, b: int): int
    requires b > 0
  {
    if a >= 0 then a / b else -(-a / b)
  }

  /** The size of an output along an axis: the logical one when known, else the mode's. */
  function Extent(o: Output, logical: int, mode: int): int {
    if o.xdgDone && logical > 0 then logical else if o.scale > 0 then Quotient(mode, o.scale) else mode
  }

  /** The output holds the point. */
  predicate Holds(o: Output, gx: int, gy: int) {
    o.x <= gx < o.x + Extent(o, o.logicalW, o.modeW) && o.y <= gy < o.y + Extent(o, o.logicalH, o.modeH)
  }

  /** Output `i` is the first that holds the point, or the first of all when none does. */
  ghost predicate IsChosen(outputs: seq<Output>, gx: int, gy: int, i: nat) {
    && i < |outputs|
    && if Holds(outputs[i], gx, gy) then forall j :: 0 <= j < i ==> !Holds(outputs[j], gx, gy)
       else i == 0 && forall j :: 0 <= j < |outputs| ==> !Holds(outputs[j], gx, gy)
  }

  /** The search of `capture_region`, with its fallback. */
  method ChooseOutput(outputs: seq<Output>, gx: int, gy: int) returns (i: nat)
    requires outputs != []
    ensures IsChosen(outputs, gx, gy, i)
  {
    i := 0;
    while i < |outputs|
      invariant i <= |outputs| && forall j :: 0 <= j < i ==> !Holds(outputs[j], gx, gy)
    {
      if Holds(outputs[i], gx, gy) { return; }
      i := i + 1;
    }
    i := 0;
  }

  /** Frame pixels for each logical one. */
  function Scale(o: Output, frameWidth: nat): (s: nat)
    ensures s >= 1
  {
    var scale := if frameWidth > 0 && o.logicalW > 0 then frameWidth / o.logicalW else if o.scale > 0 then o.scale else 1;
    if scale < 1 then 1 else scale
  }

  lemma AtLeast(d: int, m: int)
    requires m > 0
    ensures d >= 1 ==> d * m >= m
  {
  }

  lemma QuotientIs(n: int, m: int, q: int, r: int)
    requires m > 0 && n == q * m + r && 0 <= r < m
    ensures n / m == q
  {
    var q', r' := n / m, n % m;
    assert n == q' * m + r' && 0 <= r' < m;
    AtLeast(q - q', m);
    AtLeast(q' - q, m);
    assert (q - q') * m == q * m - q' * m && (q' - q) * m == q' * m - q * m;
  }

  lemma ProductOver(k: int, m: int)
    requires m > 0 && k > 0
    ensures k * m / m == k && k * m > 0
  {
    QuotientIs(k * m, m, k, 0);
    AtLeast(k, m);
  }

  /** A frame `k` times as wide as the output is logically has scale `k`. */
  lemma ScaleIsRatio(o: Output, k: nat)
    requires o.logicalW > 0 && k >= 1
    ensures Scale(o, k * o.logicalW) == k
  {
    ProductOver(k, o.logicalW);
  }

  /** The extent is the logical size whenever that is known, and otherwise the mode's when the mode
      is the logical size times the scale. */
  lemma ExtentIsLogical(o: Output, size: int, mode: int)
    requires size > 0 && o.scale >= 1 && mode == size * o.scale
    ensures Extent(o, size, mode) == size && Extent(o, 0, mode) == size
  {
    ProductOver(size, o.scale);
  }

  // ---------------------------------------------------------------- the part of the frame

  /** Where a crop starts along one axis: the scaled distance from the output, not below 0. */
  function CropStart(from: int): nat { if from < 0 then 0 else from }

  /** How far it reaches, in 32-bit arithmetic: clipped when it would pass the frame. */
  function CropLength(from: int, length: nat, frame: nat): nat {
    var start := CropStart(from);
    if (start + length) % UINT32 > frame then (if frame > start then frame - start else 0) else length
  }

  /** The crop made for a region that asks for `asked` pixels from `from` on. */
  predicate InCrop(from: int, asked: nat, frame: nat, k: int) {
    CropStart(from) <= k < CropStart(from) + CropLength(from, asked % UINT32, frame)
  }

  predicate InBoth(from: int, asked: nat, frame: nat, k: int) { from <= k < from + asked && 0 <= k < frame }

  /** Along an axis the crop is the part of the region that lies on the frame. */
  ghost predicate IsCut(from: int, asked: nat, frame: nat) {
    forall k :: InCrop(from, asked, frame, k) <==> InBoth(from, asked, frame, k)
  }

  /** The region does not start before the frame, or covers it to its end. */
  predicate NotMoved(from: int, asked: nat, frame: nat) { 0 <= from || frame <= from + asked }

  /** The end of the region fits 32 bits, or what is left of it still lies behind the frame. */
  predicate ClipSeesEnd(start: nat, length: nat, frame: nat) {
    start + length < UINT32 || frame < start + length - UINT32
  }

  /** What is left of a length that does not fit 32 bits still reaches the end of the frame and
      no further, or there is nothing to take. */
  predicate LeftoverReaches(start: nat, left: nat, frame: nat) {
    (start + left) % UINT32 > frame || start + left == frame || (left == 0 && frame <= start)
  }

  /** Everything a caller can know beforehand about whether the region will be cut. */
  predicate WillBeCut(from: int, asked: nat, frame: nat) {
    || asked == 0
    || (&& NotMoved(from, asked, frame)
        && if asked < UINT32 then ClipSeesEnd(CropStart(from), asked, frame)
           else LeftoverReaches(CropStart(from), asked % UINT32, frame))
  }

  /** A frame and a place on it, of 32-bit numbers, the place signed. */
  predicate Sized(from: int, frame: nat) { -0x8000_0000 <= from < 0x8000_0000 && 0 < frame < UINT32 }

  /** A region whose length fits 32 bits is cut exactly when it is not moved and the clip test
      sees its end. */
  lemma ShortRegionIsCut(from: int, asked: nat, frame: nat)
    requires Sized(from, frame) && 0 < asked < UINT32
    ensures IsCut(from, asked, frame) <==> NotMoved(from, asked, frame) && ClipSeesEnd(CropStart(from), asked, frame)
  {
    var start, length := CropStart(from), CropLength(from, asked, frame);
    assert asked % UINT32 == asked;
    if !ClipSeesEnd(start, asked, frame) {
      assert length == asked && start + length > frame;
      assert InCrop(from, asked, frame, start + length - 1) && !InBoth(from, asked, frame, start + length - 1);
    } else if !NotMoved(from, asked, frame) {
      var k := if from + asked < 0 then 0 else from + asked;
      assert InCrop(from, asked, frame, k) && !InBoth(from, asked, frame, k);
    }
  }

  /** A longer one is cut exactly when it is not moved and what is left of its length reaches. */
  lemma LongRegionIsCut(from: int, asked: nat, frame: nat)
    requires Sized(from, frame) && UINT32 <= asked
    ensures IsCut(from, asked, frame) <==>
            NotMoved(from, asked, frame) && LeftoverReaches(CropStart(from), asked % UINT32, frame)
  {
    var start, left := CropStart(from), asked % UINT32;
    var length := CropLength(from, left, frame);
    if NotMoved(from, asked, frame) {
      if (start + left) % UINT32 <= frame && start + left < frame {
        assert InBoth(from, asked, frame, start + left) && !InCrop(from, asked, frame, start + left);
      }
      if (start + left) % UINT32 <= frame && start + left > frame && left > 0 {
        var k := start + left - 1;
        assert InCrop(from, asked, frame, k);
        assert !InBoth(from, asked, frame, k);
      }
    } else {
      var k := from + asked;
      assert start == 0 && !InBoth(from, asked, frame, k) && InBoth(from, asked, frame, k - 1);
      assert InCrop(from, asked, frame, k) || !InCrop(from, asked, frame, k - 1);
    }
  }

  /** Along an axis the crop is the part of the region on the frame exactly in these cases;
      otherwise the region is moved, refused or cut short. */
  lemma CropIsIntersection(from: int, asked: nat, frame: nat)
    requires Sized(from, frame)
    ensures IsCut(from, asked, frame) <==> WillBeCut(from, asked, frame)
  {
    if 0 < asked < UINT32 {
      ShortRegionIsCut(from, asked, frame);
    } else if asked >= UINT32 {
      LongRegionIsCut(from, asked, frame);
    }
  }

  /** A crop that is not empty passes the region check of the copy exactly when the clip test
      sees the region's end. */
  lemma CropFits(from: int, length: nat, frame: nat)
    requires Sized(from, frame) && length < UINT32 && CropLength(from, length, frame) > 0
    ensures CropStart(from) + CropLength(from, length, frame) <= frame <==> ClipSeesEnd(CropStart(from), length, frame)
  {
  }

  /** Where the region starts on the frame of the chosen output. */
  function From(g: int, origin: int, scale: nat): int { (g - origin) * scale }

  /** How many frame pixels it asks for; the program takes the size as unsigned. */
  function Asked(size: int, scale: nat): nat { (size % UINT32) * scale }

  /** On each axis the region is cut exactly when it will be by the condition above; when some
      output holds its corner, it is not moved. */
  lemma ChosenRegionIsCut(outputs: seq<Output>, gx: int, gy: int, i: nat, gw: int, gh: int, frameW: nat, frameH: nat)
    requires IsChosen(outputs, gx, gy, i)
    requires var o := outputs[i]; var s := Scale(o, frameW);
             Sized(From(gx, o.x, s), frameW) && Sized(From(gy, o.y, s), frameH)
    ensures var o := outputs[i]; var s := Scale(o, frameW);
            && (IsCut(From(gx, o.x, s), Asked(gw, s), frameW) <==> WillBeCut(From(gx, o.x, s), Asked(gw, s), frameW))
            && (IsCut(From(gy, o.y, s), Asked(gh, s), frameH) <==> WillBeCut(From(gy, o.y, s), Asked(gh, s), frameH))
    ensures (exists j :: 0 <= j < |outputs| && Holds(outputs[j], gx, gy)) ==>
              var o := outputs[i]; var s := Scale(o, frameW);
              NotMoved(From(gx, o.x, s), Asked(gw, s), frameW) && NotMoved(From(gy, o.y, s), Asked(gh, s), frameH)
  {
    var o := outputs[i];
    var s := Scale(o, frameW);
    FromSign(gx, o.x, s);
    FromSign(gy, o.y, s);
    CropIsIntersection(From(gx, o.x, s), Asked(gw, s), frameW);
    CropIsIntersection(From(gy, o.y, s), Asked(gh, s), frameH);
  }

  lemma FromSign(g: int, origin: int, scale: nat)
    requires scale >= 1
    ensures From(g, origin, scale) >= 0 <==> origin <= g
  {
    if origin <= g {
      assert (g - origin) * scale >= 0;
    } else {
      assert (g - origin) * scale <= (g - origin) * 1;
    }
  }

  /** A region that starts ten pixels left of the only output is taken from it all the same,
      and moved: its last columns were not asked for. */
  lemma FallbackMovesRegion()
    ensures var o := Output(0, 0, 1, true, 1920, 1080, 1920, 1080);
            && IsChosen([o], -10, 0, 0) && !Holds(o, -10, 0) && From(-10, o.x, Scale(o, 1920)) == -10
            && InCrop(-10, 100, 1920, 95) && !InBoth(-10, 100, 1920, 95)
  {
  }

  /** A region far wider than the output, whose corner the output holds, is refused instead of
      cut: its end wraps, and the clip test does not see it. */
  lemma WideRegionIsRefused()
    ensures var o := Output(0, 0, 2, true, 1920, 1080, 3840, 2160);
            && Holds(o, 10, 0) && Scale(o, 3840) == 2 && From(10, o.x, 2) == 20 && Asked(2147483647, 2) == 4294967294
            && !IsCut(20, 4294967294, 3840)
            && CropStart(20) + CropLength(20, 4294967294, 3840) > 3840
  {
    ShortRegionIsCut(20, 4294967294, 3840);
  }

  /** And one whose own size wraps is cut short: of 1431655766 columns at scale 3 two are left. */
  lemma WrappedRegionIsCutShort()
    ensures Asked(1431655766, 3) == UINT32 + 2 && CropLength(0, Asked(1431655766, 3) % UINT32, 5760) == 2
    ensures !IsCut(0, Asked(1431655766, 3), 5760)
  {
    LongRegionIsCut(0, UINT32 + 2, 5760);
  }

  lemma ScaledBelow(d: int, n: int, k: int)
    requires k >= 1
    ensures 0 <= d < n <==> 0 <= d * k < n * k
  {
    AtLeastIf(d, k);
    AtLeastIf(n - d - 1, k);
    assert (n - d - 1) * k == n * k - d * k - k;
    if d < 0 {
      assert d * k <= -1 * k;
    }
    if d >= n {
      assert (d - n) * k >= 0;
    }
  }

  lemma AtLeastIf(d: int, k: int)
    requires k >= 1
    ensures d >= 0 ==> d * k >= 0
  {
  }

  /** An output holds a corner exactly when the corner lies on a frame that is `k` times its logical
      size. */
  lemma HoldsWhatItsFrameShows(o: Output, gx: int, gy: int, k: nat)
    requires o.xdgDone && o.logicalW > 0 && o.logicalH > 0 && k >= 1
    ensures Holds(o, gx, gy) <==>
            && 0 <= From(gx, o.x, Scale(o, k * o.logicalW)) < k * o.logicalW
            && 0 <= From(gy, o.y, Scale(o, k * o.logicalW)) < k * o.logicalH
  {
    ScaleIsRatio(o, k);
    ScaledBelow(gx - o.x, o.logicalW, k);
    ScaledBelow(gy - o.y, o.logicalH, k);
  }

  // ---------------------------------------------------------------- the crop

  /** The end of `capture_region`: the pixels of the crop, unless it is empty, fails the checks or
      is copied outside its memory. */
  method CropFrame(f: Frame, o: Output, gx: int, gy: int, gw: int, gh: int)
    returns (outcome: Outcome, rgba: array<byte>, x: nat, y: nat, w: nat, h: nat)
    ensures var s := Scale(o, f.width);
            && x == CropStart(From(gx, o.x, s)) && w == CropLength(From(gx, o.x, s), Asked(gw, s) % UINT32, f.width)
            && y == CropStart(From(gy, o.y, s)) && h == CropLength(From(gy, o.y, s), Asked(gh, s) % UINT32, f.height)
    ensures outcome == Refused <==> w == 0 || h == 0 || !CopyAllowed(f, x, y, w, h, Mul32(w, 4))
    ensures outcome == Overrun <==>
              w > 0 && h > 0 && CopyAllowed(f, x, y, w, h, Mul32(w, 4)) && !RegionSafe(f, x, y, w, h, false)
    ensures outcome == Written ==> y + h <= f.height && RegionFits(f, x, y, w, h, false)
    ensures outcome == Written ==> rgba[..] == Join(FrameRows(f, x, y, w, h, false))
  {
    var s := Scale(o, f.width);
    var px, py := From(gx, o.x, s), From(gy, o.y, s);
    if px < 0 { px := 0; }
    if py < 0 { py := 0; }
    var pw, ph := Asked(gw, s) % UINT32, Asked(gh, s) % UINT32;
    if (px + pw) % UINT32 > f.width { pw := if f.width > px then f.width - px else 0; }
    if (py + ph) % UINT32 > f.height { ph := if f.height > py then f.height - py else 0; }
    x, y, w, h := px, py, pw, ph;
    if pw == 0 || ph == 0 {
      rgba := new byte[0];
      outcome := Refused;
    } else {
      outcome, rgba := CopyOut(f, px, py, pw, ph, false);
    }
  }
}
