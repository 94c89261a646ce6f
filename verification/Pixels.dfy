/** Frames of shared memory, their pixels, and the strided copy into an RGBA buffer. */
module Pixels {
  import opened Basics

  datatype Format = ARGB8888 | XRGB8888 | ABGR8888 | XBGR8888 | RGB888 | BGR888 | OtherFormat

  function BytesPerPixel(f: Format): nat {
    match f
    case RGB888 => 3
    case BGR888 => 3
    case OtherFormat => 0
    case _ => 4
  }

  /** `read_pixel_rgba`: little-endian formats give their colour bytes back to front. */
  function DecodePixel(f: Format, src: seq<byte>): (rgba: seq<byte>)
    requires |src| >= BytesPerPixel(f)
    ensures |rgba| == 4 && rgba[3] == 0xff
  {
    match f
    case ABGR8888 => [src[0], src[1], src[2], 0xff]
    case XBGR8888 => [src[0], src[1], src[2], 0xff]
    case BGR888 => [src[0], src[1], src[2], 0xff]
    case OtherFormat => [0, 0, 0, 0xff]
    case _ => [src[2], src[1], src[0], 0xff]
  }

  // ---------------------------------------------------------------- colours

  datatype Channel = Red | Green | Blue | Rest

  datatype Colour = Colour(red: byte, green: byte, blue: byte)

  /** The channels of a pixel, most significant byte first, as the format's name lists them. */
  function Channels(f: Format): seq<Channel> {
    match f
    case ARGB8888 => [Rest, Red, Green, Blue]
    case XRGB8888 => [Rest, Red, Green, Blue]
    case ABGR8888 => [Rest, Blue, Green, Red]
    case XBGR8888 => [Rest, Blue, Green, Red]
    case RGB888 => [Red, Green, Blue]
    case BGR888 => [Blue, Green, Red]
    case OtherFormat => []
  }

  function ChannelByte(c: Channel, colour: Colour, rest: byte): byte {
    match c
    case Red => colour.red
    case Green => colour.green
    case Blue => colour.blue
    case Rest => rest
  }

  /** A pixel of this colour in memory: the least significant byte comes first. */
  function Encode(f: Format, colour: Colour, rest: byte): seq<byte> {
    EncodeFrom(Channels(f), colour, rest)
  }

  function EncodeFrom(channels: seq<Channel>, colour: Colour, rest: byte): (bytes: seq<byte>)
    ensures |bytes| == |channels|
    ensures forall i :: 0 <= i < |bytes| ==> bytes[i] == ChannelByte(channels[|channels| - 1 - i], colour, rest)
  {
    if channels == [] then [] else EncodeFrom(channels[1..], colour, rest) + [ChannelByte(channels[0], colour, rest)]
  }

  /** Decoding gives back the colour, whatever the remaining byte. */
  lemma ColoursAreKept(f: Format, colour: Colour, rest: byte)
    requires f != OtherFormat
    ensures |Encode(f, colour, rest)| == BytesPerPixel(f)
    ensures DecodePixel(f, Encode(f, colour, rest)) == [colour.red, colour.green, colour.blue, 0xff]
  {
    var src, n := Encode(f, colour, rest), |Channels(f)|;
    assert src[0] == ChannelByte(Channels(f)[n - 1], colour, rest);
    assert src[1] == ChannelByte(Channels(f)[n - 2], colour, rest);
    assert src[2] == ChannelByte(Channels(f)[n - 3], colour, rest);
  }

  /** Every pixel is the encoding of the colour it decodes to. */
  lemma EveryPixelHasItsColour(f: Format, src: seq<byte>)
    requires f != OtherFormat && |src| == BytesPerPixel(f)
    ensures var rgba := DecodePixel(f, src);
            src == Encode(f, Colour(rgba[0], rgba[1], rgba[2]), src[|src| - 1])
  {
    var rgba, n := DecodePixel(f, src), |Channels(f)|;
    var colour := Colour(rgba[0], rgba[1], rgba[2]);
    var bytes := Encode(f, colour, src[n - 1]);
    assert bytes[0] == ChannelByte(Channels(f)[n - 1], colour, src[n - 1]);
    assert bytes[1] == ChannelByte(Channels(f)[n - 2], colour, src[n - 1]);
    assert bytes[2] == ChannelByte(Channels(f)[n - 3], colour, src[n - 1]);
    assert n == 4 ==> bytes[3] == ChannelByte(Channels(f)[0], colour, src[n - 1]);
    assert forall i :: 0 <= i < n ==> bytes[i] == src[i];
  }

  /** A captured frame; `data` is its mapping, absent when there is none. */
  datatype Frame = Frame(format: Format, width: nat, height: nat, stride: nat, data: seq<byte>, mapped: bool)

  /** The product of `n` and `s`: the size of `n` rows of `s` bytes, row by row. */
  function Times(n: nat, s: nat): nat { if n == 0 then 0 else Times(n - 1, s) + s }

  lemma {:induction false} TimesIsProduct(n: nat, s: nat)
    ensures Times(n, s) == n * s
    decreases n
  {
    if n > 0 {
      TimesIsProduct(n - 1, s);
      assert (n - 1) * s + s == n * s;
    }
  }

  lemma {:induction false} TimesMono(a: nat, b: nat, s: nat)
    requires a <= b
    ensures Times(a, s) <= Times(b, s)
    decreases b
  {
    if a < b {
      TimesMono(a, b - 1, s);
    }
  }

  /** Multiplication in 32 bits. */
  function Mul32(a: nat, b: nat): nat { Times(a, b) % UINT32 }

  /** What the program checks before it copies, in 32-bit arithmetic. */
  predicate CopyAllowed(f: Frame, x: nat, y: nat, w: nat, h: nat, dstStride: nat) {
    && f.mapped && f.format != OtherFormat
    && f.stride >= Mul32(f.width, BytesPerPixel(f.format))
    && x <= f.width && y <= f.height && w <= f.width - x && h <= f.height - y
    && dstStride >= Mul32(w, 4)
  }

  /** A mapping is as long as the frame's rows, which are 32-bit sizes. */
  predicate Sane(f: Frame) { f.mapped ==> |f.data| == Times(f.height, f.stride) && f.stride < UINT32 }

  /** A frame as the capture leaves it: nothing can be mapped in zero bytes. */
  predicate Captured(f: Frame) { Sane(f) && (f.mapped ==> |f.data| > 0) }

  /** The size of a source row fits 32 bits. */
  predicate RowFits(f: Frame) { Times(f.width, BytesPerPixel(f.format)) < UINT32 }

  function SourceIndex(f: Frame, x: nat, y: nat): nat { Times(y, f.stride) + Times(x, BytesPerPixel(f.format)) }

  predicate Readable(f: Frame) { Sane(f) && f.mapped && f.stride >= Times(f.width, BytesPerPixel(f.format)) }

  /** Every pixel of an accepted frame lies inside its mapping. */
  lemma PixelInBounds(f: Frame, x: nat, y: nat)
    requires Readable(f) && x < f.width && y < f.height
    ensures SourceIndex(f, x, y) + BytesPerPixel(f.format) <= |f.data|
  {
    TimesMono(x + 1, f.width, BytesPerPixel(f.format));
    TimesMono(y + 1, f.height, f.stride);
  }

  /** The copy of a whole frame into a buffer of its own passes the checks. */
  predicate WholeAllowed(f: Frame) { CopyAllowed(f, 0, 0, f.width, f.height, Mul32(f.width, 4)) }

  /** A row that wraps passes the size check although the frame is read outside its mapping:
      2^30 + 1 four-byte pixels in a row of four bytes. */
  lemma WrappedRowPassesChecks()
    ensures var f := Frame(XRGB8888, 0x4000_0001, 1, 4, [0, 0, 0, 0], true);
            Captured(f) && WholeAllowed(f) && SourceIndex(f, 1, 0) + BytesPerPixel(f.format) > |f.data|
  {
    TimesIsProduct(0x4000_0001, 4);
    assert Times(1, 4) == 4;
  }

  /** A destination row can wrap although the source row does not: 2^30 + 1 three-byte pixels
      are read properly and written to a buffer of four bytes. */
  lemma WrappedBufferPassesChecks(data: seq<byte>)
    requires |data| == 0xC000_0003
    ensures var f := Frame(RGB888, 0x4000_0001, 1, 0xC000_0003, data, true);
            && Captured(f) && Readable(f) && WholeAllowed(f)
            && BufferSize(f.width, f.height) == 4 && BufferIndex(f.width, 1, 0) + 4 > BufferSize(f.width, f.height)
  {
    TimesIsProduct(0x4000_0001, 3);
    TimesIsProduct(0x4000_0001, 4);
    assert Times(1, 0xC000_0003) == 0xC000_0003;
    assert Times(1, 4) == 4;
  }

  /** Every pixel of the frame is read from its mapping. */
  ghost predicate ReadsFit(f: Frame) {
    forall x, y :: 0 <= x < f.width && 0 <= y < f.height ==>
      SourceIndex(f, x, y) + BytesPerPixel(f.format) <= |f.data|
  }

  /** The buffer allocated for `w` by `h` pixels, and where pixel (x, y) goes in it. */
  function BufferSize(w: nat, h: nat): nat { Times(h, Mul32(w, 4)) }

  function BufferIndex(w: nat, x: nat, y: nat): nat { Times(y, Mul32(w, 4)) + 4 * x }

  /** Every pixel is written into the allocated buffer. */
  ghost predicate WritesFit(w: nat, h: nat) {
    forall x, y :: 0 <= x < w && 0 <= y < h ==> BufferIndex(w, x, y) + 4 <= BufferSize(w, h)
  }

  /** For a copy of a whole accepted frame every read stays inside the mapping exactly when a
      source row's size does not wrap. */
  lemma ReadsFitExactly(f: Frame)
    requires Captured(f) && WholeAllowed(f) && f.width > 0
    ensures ReadsFit(f) <==> RowFits(f)
  {
    var bpp := BytesPerPixel(f.format);
    if RowFits(f) {
      forall x, y | 0 <= x < f.width && 0 <= y < f.height ensures SourceIndex(f, x, y) + bpp <= |f.data| {
        PixelInBounds(f, x, y);
      }
    } else {
      assert SourceIndex(f, f.width - 1, f.height - 1) + bpp > |f.data|;
    }
  }

  /** Every write stays inside the buffer exactly when a destination row's size does not wrap. */
  lemma WritesFitExactly(w: nat, h: nat)
    requires w > 0 && h > 0
    ensures WritesFit(w, h) <==> 4 * w < UINT32
  {
    TimesIsProduct(w, 4);
    if 4 * w < UINT32 {
      forall x, y | 0 <= x < w && 0 <= y < h ensures BufferIndex(w, x, y) + 4 <= BufferSize(w, h) {
        TimesMono(y + 1, h, Mul32(w, 4));
      }
    } else {
      assert BufferIndex(w, w - 1, h - 1) + 4 > BufferSize(w, h);
    }
  }

  /** The copy of a whole accepted frame touches only its own memory exactly when four bytes
      for each pixel of a row fit 32 bits. */
  lemma WholeCopyIsSafeExactly(f: Frame)
    requires Captured(f) && WholeAllowed(f) && f.width > 0
    ensures ReadsFit(f) && WritesFit(f.width, f.height) <==> 4 * f.width < UINT32
  {
    ReadsFitExactly(f);
    WritesFitExactly(f.width, f.height);
    TimesIsProduct(f.width, BytesPerPixel(f.format));
  }

  /** Without wrapping, the checks say that the region and its rows really fit. */
  lemma ChecksMeanFit(f: Frame, x: nat, y: nat, w: nat, h: nat, dstStride: nat)
    requires Sane(f) && CopyAllowed(f, x, y, w, h, dstStride)
    ensures RowFits(f) <==> Readable(f)
    ensures 4 * w < UINT32 ==> dstStride >= 4 * w
    ensures x + w <= f.width && y + h <= f.height
  {
    TimesIsProduct(w, 4);
  }

  /** Without wrapping they ask for exactly this: a mapped frame of a known format whose rows hold
      their pixels, a region within it, and room for its rows. */
  lemma ChecksExactly(f: Frame, x: nat, y: nat, w: nat, h: nat, dstStride: nat)
    requires RowFits(f) && 4 * w < UINT32
    ensures CopyAllowed(f, x, y, w, h, dstStride) <==>
            && f.mapped && f.format != OtherFormat && f.width * BytesPerPixel(f.format) <= f.stride
            && x + w <= f.width && y + h <= f.height && 4 * w <= dstStride
  {
    TimesIsProduct(w, 4);
    TimesIsProduct(f.width, BytesPerPixel(f.format));
  }

  // ---------------------------------------------------------------- pictures

  type Pixel = p: seq<byte> | |p| == 4 witness [0, 0, 0, 0]

  /** A picture is its rows of RGBA pixels, top to bottom. */
  type Picture = seq<seq<Pixel>>

  ghost predicate IsPicture(p: Picture, width: nat, height: nat) {
    |p| == height && forall y :: 0 <= y < height ==> |p[y]| == width
  }

  /** Pixel (x, y) lies in the mapping. */
  predicate PixelFits(f: Frame, x: nat, y: nat) { SourceIndex(f, x, y) + BytesPerPixel(f.format) <= |f.data| }

  /** The decoded pixel (x, y) of a frame. */
  function PixelAt(f: Frame, x: nat, y: nat): (rgba: Pixel)
    requires PixelFits(f, x, y)
    ensures rgba[3] == 0xff
  {
    var i := SourceIndex(f, x, y);
    DecodePixel(f.format, f.data[i..i + BytesPerPixel(f.format)])
  }

  /** Pixels [x, x + w) of row `y` lie in the mapping. */
  ghost predicate SpanFits(f: Frame, x: nat, y: nat, w: nat) { forall c :: x <= c < x + w ==> PixelFits(f, c, y) }

  lemma ReadableFits(f: Frame, y: nat)
    requires Readable(f) && y < f.height
    ensures SpanFits(f, 0, y, f.width)
  {
    forall c | 0 <= c < f.width ensures PixelFits(f, c, y) {
      PixelInBounds(f, c, y);
    }
  }

  function DecodeSpan(f: Frame, x: nat, y: nat, w: nat): (row: seq<Pixel>)
    requires SpanFits(f, x, y, w)
    ensures |row| == w && forall i :: 0 <= i < w ==> row[i] == PixelAt(f, x + i, y)
  {
    seq(w, i requires 0 <= i < w => SpanPixel(f, x, y, w, i))
  }

  function SpanPixel(f: Frame, x: nat, y: nat, w: nat, i: nat): (rgba: Pixel)
    requires SpanFits(f, x, y, w) && i < w
    ensures PixelFits(f, x + i, y) && rgba == PixelAt(f, x + i, y)
  {
    assert PixelFits(f, x + i, y);
    PixelAt(f, x + i, y)
  }

  function DecodeRow(f: Frame, y: nat): (row: seq<Pixel>)
    requires Readable(f) && y < f.height
    ensures |row| == f.width
    ensures SpanFits(f, 0, y, f.width) && forall x :: 0 <= x < f.width ==> row[x] == PixelAt(f, x, y)
  {
    ReadableFits(f, y);
    DecodeSpan(f, 0, y, f.width)
  }

  /** A pixel whose bytes are those of a colour shows the colour. */
  lemma PixelShowsColour(f: Frame, x: nat, y: nat, colour: Colour, rest: byte)
    requires f.format != OtherFormat && PixelFits(f, x, y)
    requires var i := SourceIndex(f, x, y); f.data[i..i + BytesPerPixel(f.format)] == Encode(f.format, colour, rest)
    ensures PixelAt(f, x, y) == [colour.red, colour.green, colour.blue, 0xff]
  {
    ColoursAreKept(f.format, colour, rest);
  }

  /** What a frame shows. */
  function PictureOf(f: Frame): (p: Picture)
    requires Readable(f)
    ensures IsPicture(p, f.width, f.height) && forall y :: 0 <= y < f.height ==> p[y] == DecodeRow(f, y)
  {
    seq(f.height, y requires 0 <= y < f.height => DecodeRow(f, y))
  }

  /** The bytes of a row of pixels. */
  function Flatten(row: seq<Pixel>): (bytes: seq<byte>)
    ensures |bytes| == 4 * |row|
  {
    if row == [] then [] else Flatten(row[..|row| - 1]) + row[|row| - 1]
  }

  lemma {:induction false} FlattenAt(row: seq<Pixel>, k: nat)
    requires k < |row|
    ensures Flatten(row)[4 * k..4 * k + 4] == row[k]
    decreases |row|
  {
    var n := |row| - 1;
    if k < n {
      FlattenAt(row[..n], k);
      HeadSlice(Flatten(row[..n]), row[n], 4 * k, 4 * k + 4);
    } else {
      TailSlice(Flatten(row[..n]), row[n]);
    }
  }

  lemma FlattenSnoc(row: seq<Pixel>, a: nat, b: nat)
    requires a <= b < |row|
    ensures Flatten(row[a..b + 1]) == Flatten(row[a..b]) + row[b]
  {
    assert row[a..b + 1][..b - a] == row[a..b];
  }

  lemma HeadSlice<T>(head: seq<T>, row: seq<T>, a: nat, b: nat)
    requires a <= b <= |head|
    ensures (head + row)[a..b] == head[a..b]
  {
  }

  lemma TailSlice<T>(head: seq<T>, row: seq<T>)
    ensures (head + row)[|head|..|head| + |row|] == row
  {
  }

  /** Rows are read bottom-up from an inverted picture. */
  function ReadRow(height: nat, y: nat, invert: bool): int { if invert then height - 1 - y else y }

  // ---------------------------------------------------------------- the copy

  function RowStart(offset: nat, stride: nat, y: nat): nat { offset + Times(y, stride) }

  lemma RowsApart(offset: nat, stride: nat, y1: nat, y2: nat)
    requires y1 < y2
    ensures RowStart(offset, stride, y1) + stride <= RowStart(offset, stride, y2)
  {
    TimesMono(y1 + 1, y2, stride);
  }

  /** Byte `k` of the destination belongs to one of the first `h` copied rows. */
  ghost predicate InRows(k: nat, offset: nat, stride: nat, rowLength: nat, h: nat) {
    exists y :: 0 <= y < h && RowStart(offset, stride, y) <= k < RowStart(offset, stride, y) + rowLength
  }

  /** `s` with `part` written at `at`. */
  function Splice(s: seq<byte>, at: nat, part: seq<byte>): (r: seq<byte>)
    requires at + |part| <= |s|
    ensures |r| == |s|
  {
    s[..at] + part + s[at + |part|..]
  }

  lemma SpliceTwice(s: seq<byte>, at: nat, a: seq<byte>, mid: nat, b: seq<byte>, ab: seq<byte>)
    requires mid == at + |a| && mid + |b| <= |s| && ab == a + b
    ensures Splice(Splice(s, at, a), mid, b) == Splice(s, at, ab)
  {
    var once := Splice(s, at, a);
    assert once[..at + |a|] == s[..at] + a;
    assert once[at + |a| + |b|..] == s[at + |a| + |b|..];
  }

  lemma SlicePart<T>(s: seq<T>, lo: nat, hi: nat, a: nat, b: nat)
    requires lo <= hi <= |s| && a <= b <= hi - lo
    ensures s[lo..hi][a..b] == s[lo + a..lo + b]
  {
    var part := s[lo..hi];
    forall k | 0 <= k < b - a ensures part[a..b][k] == s[lo + a..lo + b][k] {
      assert part[a + k] == s[lo + a + k];
    }
  }

  lemma PartOfSlice<T>(s: seq<T>, a: nat, m: nat, row: seq<T>, b: nat, n: nat, part: seq<T>)
    requires a + m <= |s| && s[a..a + m] == row
    requires b + n <= m && row[b..b + n] == part
    ensures s[a + b..a + b + n] == part
  {
    SlicePart(s, a, a + m, b, b + n);
  }

  method StorePixel(dst: array<byte>, o: nat, p: seq<byte>)
    requires |p| == 4 && o + 4 <= dst.Length
    modifies dst
    ensures dst[..] == Splice(old(dst[..]), o, p)
  {
    dst[o] := p[0];
    dst[o + 1] := p[1];
    dst[o + 2] := p[2];
    dst[o + 3] := p[3];
  }

  /** Store the pixel that follows the bytes `a` written so far at `start`. */
  method AppendPixel(dst: array<byte>, o: nat, p: Pixel, ghost before: seq<byte>, ghost start: nat, ghost a: seq<byte>, ghost ab: seq<byte>)
    requires o == start + |a| && o + 4 <= dst.Length == |before| && ab == a + p && dst[..] == Splice(before, start, a)
    modifies dst
    ensures dst[..] == Splice(before, start, ab)
  {
    StorePixel(dst, o, p);
    SpliceTwice(before, start, a, o, p, ab);
  }

  /** `read_pixel_rgba` at the address of one pixel. */
  method ReadPixel(f: Frame, x: nat, y: nat) returns (p: Pixel)
    requires PixelFits(f, x, y)
    ensures p == PixelAt(f, x, y)
  {
    var s := SourceIndex(f, x, y);
    p := DecodePixel(f.format, f.data[s..s + BytesPerPixel(f.format)]);
  }

  /** Pixel `i` of a row, after the `i` pixels before it. */
  method CopyPixel(f: Frame, x: nat, y: nat, i: nat, dst: array<byte>, start: nat, ghost row: seq<Pixel>, ghost before: seq<byte>)
    requires i < |row| && PixelFits(f, x + i, y) && row[i] == PixelAt(f, x + i, y)
    requires start + 4 * i + 4 <= dst.Length == |before|
    requires dst[..] == Splice(before, start, Flatten(row[0..i]))
    modifies dst
    ensures dst[..] == Splice(before, start, Flatten(row[0..i + 1]))
  {
    var p := ReadPixel(f, x + i, y);
    FlattenSnoc(row, 0, i);
    AppendPixel(dst, start + 4 * i, p, before, start, Flatten(row[0..i]), Flatten(row[0..i + 1]));
  }

  /** One row: the inner loop. */
  method CopyRow(f: Frame, x: nat, y: nat, w: nat, dst: array<byte>, start: nat, ghost row: seq<Pixel>)
    requires SpanFits(f, x, y, w) && start + 4 * w <= dst.Length
    requires row == DecodeSpan(f, x, y, w)
    modifies dst
    ensures dst[..] == Splice(old(dst[..]), start, Flatten(row))
  {
    ghost var before := dst[..];
    assert row[0..0] == [];
    for i := 0 to w
      invariant dst[..] == Splice(before, start, Flatten(row[0..i]))
    {
      assert PixelFits(f, x + i, y);
      CopyPixel(f, x, y, i, dst, start, row, before);
    }
    assert row[0..w] == row;
  }

  /** `now` is `original` with the first `r` of `rows` written, and nothing else changed. */
  ghost predicate Copied(original: seq<byte>, now: seq<byte>, offset: nat, stride: nat, w: nat, rows: seq<seq<byte>>, r: nat) {
    && |now| == |original| && r <= |rows|
    && (forall q :: 0 <= q < r ==>
          && RowStart(offset, stride, q) + 4 * w <= |now|
          && now[RowStart(offset, stride, q)..RowStart(offset, stride, q) + 4 * w] == rows[q])
    && (forall k :: 0 <= k < |now| && !InRows(k, offset, stride, 4 * w, r) ==> now[k] == original[k])
  }

  /** Writing at `s` leaves a stretch before it alone. */
  lemma SpliceLeaves(now: seq<byte>, s: nat, row: seq<byte>, a: nat, b: nat)
    requires s + |row| <= |now| && a <= b <= s
    ensures Splice(now, s, row)[a..b] == now[a..b]
  {
    SlicePart(Splice(now, s, row), 0, s, a, b);
    SlicePart(now, 0, s, a, b);
    assert Splice(now, s, row)[0..s] == now[0..s];
  }

  /** Writing the next row keeps the earlier rows and everything outside the rows. */
  lemma CopiedStep(original: seq<byte>, now: seq<byte>, offset: nat, stride: nat, w: nat, rows: seq<seq<byte>>, r: nat)
    requires Copied(original, now, offset, stride, w, rows, r) && r < |rows|
    requires |rows[r]| == 4 * w <= stride && RowStart(offset, stride, r) + 4 * w <= |now|
    ensures Copied(original, Splice(now, RowStart(offset, stride, r), rows[r]), offset, stride, w, rows, r + 1)
  {
    var s := RowStart(offset, stride, r);
    var next := Splice(now, s, rows[r]);
    forall q | 0 <= q < r + 1
      ensures RowStart(offset, stride, q) + 4 * w <= |next|
      ensures next[RowStart(offset, stride, q)..RowStart(offset, stride, q) + 4 * w] == rows[q]
    {
      if q < r {
        RowsApart(offset, stride, q, r);
        SpliceLeaves(now, s, rows[r], RowStart(offset, stride, q), RowStart(offset, stride, q) + 4 * w);
      }
    }
    forall k | 0 <= k < |next| && !InRows(k, offset, stride, 4 * w, r + 1) ensures next[k] == original[k] {
      assert !(s <= k < s + 4 * w);
      assert !InRows(k, offset, stride, 4 * w, r);
    }
  }

  /** The rows a copy of a region of a picture writes, top to bottom. */
  function RegionRows(p: Picture, x: nat, y: nat, w: nat, h: nat, invert: bool): (rows: seq<seq<byte>>)
    requires y + h <= |p| && forall k :: 0 <= k < |p| ==> x + w <= |p[k]|
    ensures |rows| == h && forall r :: 0 <= r < h ==> rows[r] == RegionRow(p, x, y + r, w, invert)
  {
    seq(h, r requires 0 <= r < h => RegionRow(p, x, y + r, w, invert))
  }

  function RegionRow(p: Picture, x: nat, y: nat, w: nat, invert: bool): (row: seq<byte>)
    requires y < |p| && forall k :: 0 <= k < |p| ==> x + w <= |p[k]|
    ensures |row| == 4 * w
  {
    Flatten(p[ReadRow(|p|, y, invert)][x..x + w])
  }

  /** Every pixel a copy of this region reads lies in the mapping. */
  ghost predicate RegionFits(f: Frame, x: nat, y: nat, w: nat, h: nat, invert: bool)
    requires y + h <= f.height
  {
    forall r :: y <= r < y + h ==> SpanFits(f, x, ReadRow(f.height, r, invert), w)
  }

  /** The last row, by address, that it reads. */
  function LastRow(f: Frame, y: nat, h: nat, invert: bool): nat
    requires 0 < h && y + h <= f.height
  {
    if invert then f.height - 1 - y else y + h - 1
  }

  /** That is so exactly when its last pixel, by address, lies there, whether or not the size of a
      row wraps. */
  lemma RegionFitsExactly(f: Frame, x: nat, y: nat, w: nat, h: nat, invert: bool)
    requires 0 < w && 0 < h && y + h <= f.height
    ensures RegionFits(f, x, y, w, h, invert) <==>
            Times(LastRow(f, y, h, invert), f.stride) + Times(x + w, BytesPerPixel(f.format)) <= |f.data|
  {
    var bpp, last := BytesPerPixel(f.format), LastRow(f, y, h, invert);
    if Times(last, f.stride) + Times(x + w, bpp) <= |f.data| {
      forall r, c | y <= r < y + h && x <= c < x + w ensures PixelFits(f, c, ReadRow(f.height, r, invert)) {
        TimesMono(ReadRow(f.height, r, invert), last, f.stride);
        TimesMono(c + 1, x + w, bpp);
      }
    } else {
      var r := if invert then y else y + h - 1;
      assert ReadRow(f.height, r, invert) == last && !PixelFits(f, x + w - 1, last);
      assert !SpanFits(f, x, last, w);
    }
  }

  function FrameRow(f: Frame, x: nat, y: nat, w: nat): (row: seq<byte>)
    requires SpanFits(f, x, y, w)
    ensures |row| == 4 * w
  {
    Flatten(DecodeSpan(f, x, y, w))
  }

  /** The rows a copy of a region of a frame writes, top to bottom. */
  function FrameRows(f: Frame, x: nat, y: nat, w: nat, h: nat, invert: bool): (rows: seq<seq<byte>>)
    requires y + h <= f.height && RegionFits(f, x, y, w, h, invert)
    ensures |rows| == h && forall r :: 0 <= r < h ==> rows[r] == FrameRow(f, x, ReadRow(f.height, y + r, invert), w)
    ensures AllSized(rows, 4 * w)
  {
    seq(h, r requires 0 <= r < h => FrameRow(f, x, ReadRow(f.height, y + r, invert), w))
  }

  lemma SpanOfRow(f: Frame, x: nat, y: nat, w: nat)
    requires Readable(f) && y < f.height && x + w <= f.width
    ensures SpanFits(f, x, y, w) && DecodeSpan(f, x, y, w) == DecodeRow(f, y)[x..x + w]
  {
    ReadableFits(f, y);
  }

  /** In a frame whose rows do not wrap these are the rows of a region of its picture. */
  lemma FrameRowsShow(f: Frame, x: nat, y: nat, w: nat, h: nat, invert: bool)
    requires Readable(f) && x + w <= f.width && y + h <= f.height
    ensures RegionFits(f, x, y, w, h, invert)
    ensures FrameRows(f, x, y, w, h, invert) == RegionRows(PictureOf(f), x, y, w, h, invert)
  {
    forall r | y <= r < y + h ensures SpanFits(f, x, ReadRow(f.height, r, invert), w) {
      SpanOfRow(f, x, ReadRow(f.height, r, invert), w);
    }
    forall r | 0 <= r < h
      ensures FrameRows(f, x, y, w, h, invert)[r] == RegionRows(PictureOf(f), x, y, w, h, invert)[r]
    {
      SpanOfRow(f, x, ReadRow(f.height, y + r, invert), w);
    }
  }

  /** Rows of `size` bytes, `stride` apart from `offset` on, end within `length`. */
  predicate RowsFit(offset: nat, stride: nat, size: nat, h: nat, length: nat) {
    h > 0 ==> RowStart(offset, stride, h - 1) + size <= length
  }

  lemma RowFitsAt(offset: nat, stride: nat, size: nat, h: nat, length: nat, r: nat)
    requires RowsFit(offset, stride, size, h, length) && r < h
    ensures RowStart(offset, stride, r) + size <= length
  {
    TimesMono(r, h - 1, stride);
  }

  ghost predicate AllSized(rows: seq<seq<byte>>, size: nat) { forall r :: 0 <= r < |rows| ==> |rows[r]| == size }

  /** `s` after the first `h` of `rows` are written to it one after the other, wherever they
      overlap. */
  ghost function WriteRows(s: seq<byte>, offset: nat, stride: nat, size: nat, rows: seq<seq<byte>>, h: nat): (r: seq<byte>)
    requires h <= |rows| && AllSized(rows, size) && RowsFit(offset, stride, size, h, |s|)
    ensures |r| == |s|
  {
    if h == 0 then s
    else
      RowsFitLess(offset, stride, size, h, |s|);
      Splice(WriteRows(s, offset, stride, size, rows, h - 1), RowStart(offset, stride, h - 1), rows[h - 1])
  }

  lemma RowsFitLess(offset: nat, stride: nat, size: nat, h: nat, length: nat)
    requires RowsFit(offset, stride, size, h, length) && h > 0
    ensures RowsFit(offset, stride, size, h - 1, length)
  {
    if h > 1 {
      RowFitsAt(offset, stride, size, h, length, h - 2);
    }
  }

  /** Rows that do not overlap are all there afterwards, and nothing else has changed. */
  lemma {:induction false} WriteRowsCopies(s: seq<byte>, offset: nat, stride: nat, w: nat, rows: seq<seq<byte>>, h: nat)
    requires h <= |rows| && AllSized(rows, 4 * w) && RowsFit(offset, stride, 4 * w, h, |s|) && 4 * w <= stride
    ensures Copied(s, WriteRows(s, offset, stride, 4 * w, rows, h), offset, stride, w, rows, h)
    decreases h
  {
    if h > 0 {
      RowsFitLess(offset, stride, 4 * w, h, |s|);
      WriteRowsCopies(s, offset, stride, w, rows, h - 1);
      CopiedStep(s, WriteRows(s, offset, stride, 4 * w, rows, h - 1), offset, stride, w, rows, h - 1);
    }
  }

  /** Row `r` of the copy, after the `r` rows before it. */
  method CopyNextRow(f: Frame, x: nat, readY: nat, w: nat, dst: array<byte>, offset: nat, dstStride: nat, r: nat,
                     ghost rows: seq<seq<byte>>, ghost original: seq<byte>)
    requires SpanFits(f, x, readY, w) && |original| == dst.Length
    requires r < |rows| && AllSized(rows, 4 * w) && RowsFit(offset, dstStride, 4 * w, r + 1, dst.Length)
    requires rows[r] == FrameRow(f, x, readY, w)
    requires RowsFit(offset, dstStride, 4 * w, r, dst.Length)
    requires dst[..] == WriteRows(original, offset, dstStride, 4 * w, rows, r)
    modifies dst
    ensures dst[..] == WriteRows(original, offset, dstStride, 4 * w, rows, r + 1)
  {
    CopyRow(f, x, readY, w, dst, RowStart(offset, dstStride, r), DecodeSpan(f, x, readY, w));
  }

  lemma RowsFitUpTo(offset: nat, stride: nat, size: nat, h: nat, length: nat, r: nat)
    requires RowsFit(offset, stride, size, h, length) && r <= h
    ensures RowsFit(offset, stride, size, r, length)
  {
    if r > 0 {
      RowFitsAt(offset, stride, size, h, length, r - 1);
    }
  }

  /** The loops of `copy_frame_region_rgba`. */
  method CopyRows(f: Frame, x: nat, y: nat, w: nat, h: nat, invert: bool, dst: array<byte>, offset: nat, dstStride: nat,
                  ghost rows: seq<seq<byte>>)
    requires y + h <= f.height && RegionFits(f, x, y, w, h, invert)
    requires rows == FrameRows(f, x, y, w, h, invert)
    requires RowsFit(offset, dstStride, 4 * w, h, dst.Length)
    modifies dst
    ensures dst[..] == WriteRows(old(dst[..]), offset, dstStride, 4 * w, rows, h)
  {
    ghost var original := dst[..];
    for r := 0 to h
      invariant RowsFit(offset, dstStride, 4 * w, r, dst.Length)
      invariant dst[..] == WriteRows(original, offset, dstStride, 4 * w, rows, r)
    {
      var readY := if invert then f.height - 1 - (y + r) else y + r;
      RowsFitUpTo(offset, dstStride, 4 * w, h, dst.Length, r + 1);
      assert readY == ReadRow(f.height, y + r, invert);
      CopyNextRow(f, x, readY, w, dst, offset, dstStride, r, rows, original);
    }
  }

  /** `copy_frame_region_rgba`: accepted exactly when the checks pass, and then the decoded rows
      of the region, mirrored when inverted, are written one after the other.  Callers owe it
      the memory: an accepted region is in the mapping and its rows are in the destination. */
  method CopyRegion(f: Frame, x: nat, y: nat, w: nat, h: nat, invert: bool, dst: array<byte>, offset: nat, dstStride: nat)
    returns (ok: bool)
    requires CopyAllowed(f, x, y, w, h, dstStride) ==>
               RegionFits(f, x, y, w, h, invert) && RowsFit(offset, dstStride, 4 * w, h, dst.Length)
    modifies dst
    ensures ok <==> CopyAllowed(f, x, y, w, h, dstStride)
    ensures !ok ==> dst[..] == old(dst[..])
    ensures ok ==> dst[..] == WriteRows(old(dst[..]), offset, dstStride, 4 * w, FrameRows(f, x, y, w, h, invert), h)
  {
    var bpp := BytesPerPixel(f.format);
    if !f.mapped || f.format == OtherFormat { return false; }
    if f.stride < Mul32(f.width, bpp) { return false; }
    if x > f.width || y > f.height || w > f.width - x || h > f.height - y { return false; }
    if dstStride < Mul32(w, 4) { return false; }
    CopyRows(f, x, y, w, h, invert, dst, offset, dstStride, FrameRows(f, x, y, w, h, invert));
    ok := true;
  }

  // ---------------------------------------------------------------- whole frames

  /** Rows written one after the other. */
  function Join(rows: seq<seq<byte>>): seq<byte> {
    if rows == [] then [] else Join(rows[..|rows| - 1]) + rows[|rows| - 1]
  }

  /** Row `y` of joined rows of equal size is where row `y` starts. */
  lemma {:induction false} JoinRow(rows: seq<seq<byte>>, size: nat, y: nat)
    requires y < |rows| && forall r :: 0 <= r < |rows| ==> |rows[r]| == size
    ensures |Join(rows)| == Times(|rows|, size) && Times(y, size) + size <= Times(|rows|, size)
    ensures Join(rows)[Times(y, size)..Times(y, size) + size] == rows[y]
    decreases |rows|
  {
    var n := |rows| - 1;
    var head := rows[..n];
    if n > 0 {
      JoinRow(head, size, if y < n then y else 0);
    }
    if y < n {
      HeadSlice(Join(head), rows[n], Times(y, size), Times(y, size) + size);
    } else {
      TailSlice(Join(head), rows[n]);
    }
  }

  lemma JoinPart(rows: seq<seq<byte>>, size: nat, y: nat, b: nat, part: seq<byte>)
    requires y < |rows| && forall r :: 0 <= r < |rows| ==> |rows[r]| == size
    requires b + |part| <= size && rows[y][b..b + |part|] == part
    ensures var i := Times(y, size) + b; i + |part| <= |Join(rows)| && Join(rows)[i..i + |part|] == part
  {
    JoinRow(rows, size, y);
    PartOfSlice(Join(rows), Times(y, size), size, rows[y], b, |part|, part);
  }

  lemma {:induction false} JoinSize(rows: seq<seq<byte>>, size: nat)
    requires forall r :: 0 <= r < |rows| ==> |rows[r]| == size
    ensures |Join(rows)| == Times(|rows|, size)
    decreases |rows|
  {
    if rows != [] {
      JoinSize(rows[..|rows| - 1], size);
    }
  }

  /** The RGBA buffer `write_png_frame` fills for a picture, read as a frame of its own. */
  function Rewritten(p: Picture, width: nat, invert: bool): Frame
    requires forall k :: 0 <= k < |p| ==> width <= |p[k]|
  {
    Frame(ABGR8888, width, |p|, 4 * width, Join(RegionRows(p, 0, 0, width, |p|, invert)), true)
  }

  lemma JoinStep(rows: seq<seq<byte>>, r: nat)
    requires 0 < r <= |rows|
    ensures Join(rows[..r]) == Join(rows[..r - 1]) + rows[r - 1]
  {
    assert rows[..r][..r - 1] == rows[..r - 1];
  }

  lemma PrefixGrows<T>(s: seq<T>, at: nat, size: nat)
    requires at + size <= |s|
    ensures s[..at + size] == s[..at] + s[at..at + size]
  {
  }

  lemma {:induction false} CopiedIsJoin(original: seq<byte>, now: seq<byte>, w: nat, rows: seq<seq<byte>>, n: nat, r: nat)
    requires Copied(original, now, 0, 4 * w, w, rows, n) && r <= n
    ensures Times(r, 4 * w) <= |now| && now[..Times(r, 4 * w)] == Join(rows[..r])
    decreases r
  {
    if r > 0 {
      CopiedIsJoin(original, now, w, rows, n, r - 1);
      JoinStep(rows, r);
      PrefixGrows(now, RowStart(0, 4 * w, r - 1), 4 * w);
    }
  }

  /** How an attempt to copy ends.  After `Overrun` the program is outside its memory. */
  datatype Outcome = Refused | Written | Overrun

  /** The copy of a region into a buffer of its own reads and writes only its own memory. */
  ghost predicate RegionSafe(f: Frame, x: nat, y: nat, w: nat, h: nat, invert: bool)
    requires y + h <= f.height
  {
    RegionFits(f, x, y, w, h, invert) && WritesFit(w, h)
  }

  /** What can be tested of that beforehand. */
  predicate RegionTest(f: Frame, x: nat, y: nat, w: nat, h: nat, invert: bool)
    requires 0 < h && y + h <= f.height
  {
    && Times(LastRow(f, y, h, invert), f.stride) + Times(x + w, BytesPerPixel(f.format)) <= |f.data|
    && 4 * w < UINT32
  }

  lemma RegionSafeExactly(f: Frame, x: nat, y: nat, w: nat, h: nat, invert: bool)
    requires y + h <= f.height
    ensures RegionSafe(f, x, y, w, h, invert) <==> w == 0 || h == 0 || RegionTest(f, x, y, w, h, invert)
  {
    if w > 0 && h > 0 {
      RegionFitsExactly(f, x, y, w, h, invert);
      WritesFitExactly(w, h);
    }
  }

  /** A region copied into a buffer allocated for it, as the PNG paths do. */
  method CopyOut(f: Frame, x: nat, y: nat, w: nat, h: nat, invert: bool) returns (outcome: Outcome, rgba: array<byte>)
    ensures rgba.Length == BufferSize(w, h)
    ensures outcome == Refused <==> !CopyAllowed(f, x, y, w, h, Mul32(w, 4))
    ensures outcome == Overrun <==> CopyAllowed(f, x, y, w, h, Mul32(w, 4)) && !RegionSafe(f, x, y, w, h, invert)
    ensures outcome == Written ==> y + h <= f.height && RegionFits(f, x, y, w, h, invert)
    ensures outcome == Written ==> rgba[..] == Join(FrameRows(f, x, y, w, h, invert))
  {
    var stride := Mul32(w, 4);
    rgba := new byte[Times(h, stride)];
    TimesIsProduct(w, 4);
    // Not a test of the program's: an accepted copy leaves its memory here.
    if CopyAllowed(f, x, y, w, h, stride) {
      RegionSafeExactly(f, x, y, w, h, invert);
      if w > 0 && h > 0 && !RegionTest(f, x, y, w, h, invert) { return Overrun, rgba; }
      WrittenIsJoin(rgba[..], w, FrameRows(f, x, y, w, h, invert), h);
    }
    var ok := CopyRegion(f, x, y, w, h, invert, rgba, 0, stride);
    outcome := if ok then Written else Refused;
  }

  /** Rows written side by side into a buffer of their size fill it. */
  lemma WrittenIsJoin(blank: seq<byte>, w: nat, rows: seq<seq<byte>>, h: nat)
    requires |rows| == h && AllSized(rows, 4 * w) && |blank| == BufferSize(w, h) && (h > 0 ==> Mul32(w, 4) == 4 * w)
    ensures RowsFit(0, Mul32(w, 4), 4 * w, h, |blank|)
    ensures WriteRows(blank, 0, Mul32(w, 4), 4 * w, rows, h) == Join(rows)
  {
    if h > 0 {
      var full := WriteRows(blank, 0, 4 * w, 4 * w, rows, h);
      WriteRowsCopies(blank, 0, 4 * w, w, rows, h);
      CopiedIsJoin(blank, full, w, rows, h, h);
      assert rows[..h] == rows && full[..|full|] == full;
    }
  }

  /** `write_png_frame` up to the PNG library: the buffer holds the rewritten picture and nothing
      else, unless the checks let a frame through whose copy leaves its memory. */
  method WriteFrame(f: Frame, invert: bool) returns (outcome: Outcome, rgba: array<byte>)
    requires Captured(f)
    ensures rgba.Length == BufferSize(f.width, f.height)
    ensures outcome == Refused <==> !WholeAllowed(f)
    ensures outcome == Overrun <==> WholeAllowed(f) && f.width > 0 && !(ReadsFit(f) && WritesFit(f.width, f.height))
    ensures outcome == Written ==> Readable(f) && rgba[..] == Rewritten(PictureOf(f), f.width, invert).data
  {
    if WholeAllowed(f) {
      WholeSafeExactly(f, invert);
    }
    outcome, rgba := CopyOut(f, 0, 0, f.width, f.height, invert);
    if outcome == Written {
      FrameRowsShow(f, 0, 0, f.width, f.height, invert);
    }
  }

  /** For a whole accepted frame all three ways to say that the copy is safe agree. */
  lemma WholeSafeExactly(f: Frame, invert: bool)
    requires Captured(f) && WholeAllowed(f)
    ensures RegionSafe(f, 0, 0, f.width, f.height, invert) <==> 4 * f.width < UINT32
    ensures 4 * f.width < UINT32 ==> Readable(f)
    ensures f.width > 0 ==> (4 * f.width < UINT32 <==> ReadsFit(f) && WritesFit(f.width, f.height))
  {
    TimesIsProduct(f.width, BytesPerPixel(f.format));
    if f.width > 0 {
      WholeCopyIsSafeExactly(f);
    }
    if 4 * f.width < UINT32 {
      FrameRowsShow(f, 0, 0, f.width, f.height, invert);
    }
    RegionSafeExactly(f, 0, 0, f.width, f.height, invert);
  }

  /** Every pixel is opaque. */
  ghost predicate Opaque(p: Picture) { forall y, x :: 0 <= y < |p| && 0 <= x < |p[y]| ==> p[y][x][3] == 0xff }

  lemma PictureIsOpaque(f: Frame)
    requires Readable(f)
    ensures Opaque(PictureOf(f))
  {
    var p := PictureOf(f);
    forall y, x | 0 <= y < |p| && 0 <= x < |p[y]| ensures p[y][x][3] == 0xff {
      assert p[y][x] == DecodeRow(f, y)[x];
    }
  }

  lemma RewrittenReadable(p: Picture, width: nat, invert: bool)
    requires IsPicture(p, width, |p|) && 4 * width < UINT32
    ensures Readable(Rewritten(p, width, invert))
  {
    JoinSize(RegionRows(p, 0, 0, width, |p|, invert), 4 * width);
    TimesIsProduct(width, 4);
  }

  lemma RewrittenBytes(p: Picture, width: nat, invert: bool, x: nat, y: nat)
    requires IsPicture(p, width, |p|) && x < width && y < |p|
    ensures var i, bytes := Times(y, 4 * width) + 4 * x, Rewritten(p, width, invert).data;
            i + 4 <= |bytes| && bytes[i..i + 4] == p[ReadRow(|p|, y, invert)][x]
  {
    var row := p[ReadRow(|p|, y, invert)];
    assert row[0..width] == row;
    FlattenAt(row, x);
    JoinPart(RegionRows(p, 0, 0, width, |p|, invert), 4 * width, y, 4 * x, row[x]);
  }

  lemma DecodedIsStable(g: Frame, x: nat, y: nat, p: Pixel)
    requires Readable(g) && g.format == ABGR8888 && x < g.width && y < g.height && p[3] == 0xff
    requires SourceIndex(g, x, y) + 4 <= |g.data| && g.data[SourceIndex(g, x, y)..SourceIndex(g, x, y) + 4] == p
    ensures PixelAt(g, x, y) == p
  {
  }

  function Flipped(p: Picture, invert: bool): (q: Picture)
    ensures |q| == |p|
  {
    seq(|p|, y requires 0 <= y < |p| => p[ReadRow(|p|, y, invert)])
  }

  /** A flipped picture is upside down, any other the same. */
  lemma FlippedMirrors(p: Picture)
    ensures Flipped(p, false) == p
    ensures forall y :: 0 <= y < |p| ==> Flipped(p, true)[y] == p[|p| - 1 - y]
  {
  }

  /** Writing out a whole opaque picture and reading it back gives the picture, upside down
      when it was inverted. */
  lemma RewrittenShows(p: Picture, width: nat, invert: bool)
    requires IsPicture(p, width, |p|) && Opaque(p) && 4 * width < UINT32
    ensures Readable(Rewritten(p, width, invert))
    ensures PictureOf(Rewritten(p, width, invert)) == Flipped(p, invert)
  {
    RewrittenReadable(p, width, invert);
    var g := Rewritten(p, width, invert);
    var q := PictureOf(g);
    forall y | 0 <= y < |p| ensures q[y] == Flipped(p, invert)[y] {
      var row := p[ReadRow(|p|, y, invert)];
      forall x | 0 <= x < width ensures q[y][x] == row[x] {
        RewrittenBytes(p, width, invert, x, y);
        TimesIsProduct(x, 4);
        DecodedIsStable(g, x, y, row[x]);
      }
    }
  }

  /** Flipping a full frame twice restores the picture. */
  lemma FlipTwice(f: Frame)
    requires Readable(f) && 4 * f.width < UINT32
    ensures var once := Rewritten(PictureOf(f), f.width, true);
            && Readable(once)
            && Readable(Rewritten(PictureOf(once), f.width, true))
            && PictureOf(Rewritten(PictureOf(once), f.width, true)) == PictureOf(f)
  {
    var p := PictureOf(f);
    PictureIsOpaque(f);
    RewrittenShows(p, f.width, true);
    var q := Flipped(p, true);
    RewrittenShows(q, f.width, true);
    assert Flipped(q, true) == p;
  }
}
