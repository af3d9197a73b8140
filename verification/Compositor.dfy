/** The compositor's loops against one pixel at a time, and hit testing against what was painted. */
module Compositing {
  import opened Errors
  import Bits

  const MAX_SURFACES: nat := 32
  const MAX_DIM: nat := 8192

  datatype BlendMode = Opaque | Alpha

  // The caller's pixels, from the pointer on.
  datatype SurfacePixels = SurfacePixels(data: seq<nat>, stride: nat)

  datatype Surface = Surface(x: nat, y: nat, width: nat, height: nat, color: nat, pixels: Option<SurfacePixels>,
                             blend: BlendMode, zOrder: nat, visible: bool)

  type Slots = seq<Option<Surface>>

  // ----- colours -----

  // The byte of an ARGB pixel at bit 0, 8, 16 or 24.
  function Channel(pixel: nat, bit: nat): (c: nat)
    ensures c < 256
  {
    Byte(Bits.Quotient(pixel, Bits.Pow2(bit)))
  }

  // A cast to u8, and what `& 0xFF` does.
  function Byte(n: nat): (b: nat)
    ensures b < 256
  {
    n % 256
  }

  lemma ByteIsMask(n: nat)
    ensures Bits.Pow2(8) - 1 == 0xFF && Bits.And(n, Bits.Pow2(8) - 1) == Byte(n)
  {
    Bits.Pow2Words();
    Bits.LowMask(n, 8);
  }

  // An opaque pixel of three bytes.
  function Rgb(r: nat, g: nat, b: nat): nat {
    0xFF00_0000 + r * 0x1_0000 + g * 0x100 + b
  }

  lemma RgbChannels(r: nat, g: nat, b: nat)
    requires r < 256 && g < 256 && b < 256
    ensures var px := Rgb(r, g, b);
            Channel(px, 24) == 0xFF && Channel(px, 16) == r && Channel(px, 8) == g && Channel(px, 0) == b
  {
    var px := Rgb(r, g, b);
    Bits.Pow2Words();
    assert Bits.Pow2(0) == 1;
    Bits.DivUnique(px, 0x100_0000, 0xFF, r * 0x1_0000 + g * 0x100 + b);
    Bits.DivUnique(px, 0x1_0000, 0xFF00 + r, g * 0x100 + b);
    Bits.DivUnique(px, 0x100, 0xFF_0000 + r * 0x100 + g, b);
    Bits.DivUnique(0xFF00 + r, 256, 0xFF, r);
    Bits.DivUnique(0xFF_0000 + r * 0x100 + g, 256, 0xFF00 + r, g);
  }

  function Times(a: nat, b: nat): nat { a * b }

  function Mix(src: nat, alpha: nat, dst: nat): nat
    requires alpha <= 255
  {
    (Times(src, alpha) + Times(dst, 255 - alpha)) / 255
  }

  function AlphaBlend(r: nat, g: nat, b: nat, a: nat, dst: nat): nat
    requires a <= 255
  {
    Rgb(Byte(Mix(r, a, Channel(dst, 16))), Byte(Mix(g, a, Channel(dst, 8))), Byte(Mix(b, a, Channel(dst, 0))))
  }

  predicate Between(c: nat, a: nat, b: nat) {
    a <= c <= b || b <= c <= a
  }

  // A mixed channel lies between the two it mixes, equals the one when the other has no weight,
  // and is the exact mean cut off to an integer.
  lemma MixBetween(src: nat, alpha: nat, dst: nat)
    requires src < 256 && dst < 256 && alpha <= 255
    ensures Between(Mix(src, alpha, dst), src, dst) && Byte(Mix(src, alpha, dst)) == Mix(src, alpha, dst)
    ensures (alpha == 255 ==> Mix(src, alpha, dst) == src) && (alpha == 0 ==> Mix(src, alpha, dst) == dst)
    ensures 0 <= Times(src, alpha) + Times(dst, 255 - alpha) - 255 * Mix(src, alpha, dst) < 255
  {
    var sum := Times(src, alpha) + Times(dst, 255 - alpha);
    assert Times(src, alpha) + Times(src, 255 - alpha) == 255 * src;
    assert Times(dst, alpha) + Times(dst, 255 - alpha) == 255 * dst;
    if src <= dst {
      Bits.MulMono(src, dst, alpha);
      Bits.MulMono(src, dst, 255 - alpha);
    } else {
      Bits.MulMono(dst, src, alpha);
      Bits.MulMono(dst, src, 255 - alpha);
    }
    MeanBounds(sum, if src <= dst then src else dst, if src <= dst then dst else src);
  }

  lemma MeanBounds(sum: nat, low: nat, high: nat)
    requires 255 * low <= sum <= 255 * high
    ensures low <= sum / 255 <= high && 0 <= sum - 255 * (sum / 255) < 255
  {
  }

  // So the casts to bytes lose nothing: every channel of a blend is that mix.
  lemma BlendChannels(r: nat, g: nat, b: nat, a: nat, dst: nat)
    requires r < 256 && g < 256 && b < 256 && a <= 255
    ensures var px := AlphaBlend(r, g, b, a, dst);
            && Channel(px, 24) == 0xFF
            && Channel(px, 16) == Mix(r, a, Channel(dst, 16)) && Between(Channel(px, 16), r, Channel(dst, 16))
            && Channel(px, 8) == Mix(g, a, Channel(dst, 8)) && Between(Channel(px, 8), g, Channel(dst, 8))
            && Channel(px, 0) == Mix(b, a, Channel(dst, 0)) && Between(Channel(px, 0), b, Channel(dst, 0))
  {
    MixBetween(r, a, Channel(dst, 16));
    MixBetween(g, a, Channel(dst, 8));
    MixBetween(b, a, Channel(dst, 0));
    RgbChannels(Byte(Mix(r, a, Channel(dst, 16))), Byte(Mix(g, a, Channel(dst, 8))), Byte(Mix(b, a, Channel(dst, 0))));
  }

  // ----- one pixel -----

  predicate Covers(s: Surface, x: nat, y: nat) {
    s.x <= x < s.x + s.width && s.y <= y < s.y + s.height
  }

  const U32: nat := 0x1_0000_0000

  // The far corner does not wrap.
  predicate FitsWord(s: Surface) {
    s.x + s.width < U32 && s.y + s.height < U32
  }

  // What the hit test asks, with its sums in 32 bits.
  predicate Hits(s: Surface, x: nat, y: nat) {
    s.x <= x < (s.x + s.width) % U32 && s.y <= y < (s.y + s.height) % U32
  }

  // A surface whose far corner wraps is hit nowhere; any other exactly where it lies.
  lemma HitsIff(s: Surface, x: nat, y: nat)
    requires s.x < U32 && s.y < U32 && s.width < U32 && s.height < U32
    ensures Hits(s, x, y) <==> Covers(s, x, y) && FitsWord(s)
  {
    if s.x + s.width >= U32 { Bits.DivUnique(s.x + s.width, U32, 1, s.x + s.width - U32); }
    if s.y + s.height >= U32 { Bits.DivUnique(s.y + s.height, U32, 1, s.y + s.height - U32); }
  }

  // No surface that add_surface takes wraps on a screen that leaves its size free below 2^32.
  lemma AdmittedFits(s: Surface, width: nat, height: nat)
    requires s.width <= MAX_DIM && s.height <= MAX_DIM && s.x < width && s.y < height
    requires width <= U32 - MAX_DIM && height <= U32 - MAX_DIM
    ensures FitsWord(s) && forall x, y :: Hits(s, x, y) <==> Covers(s, x, y)
  {
    forall x, y ensures Hits(s, x, y) <==> Covers(s, x, y) { HitsIff(s, x, y); }
  }

  // The surface's own pixel under the point.
  function Source(s: Surface, x: nat, y: nat): nat {
    match s.pixels
    case None => s.color
    case Some(pix) =>
      var k := (y - s.y) * pix.stride + (x - s.x);
      if 0 <= k < |pix.data| then pix.data[k] else 0
  }

  function Blend(src: nat, dst: nat): nat {
    AlphaBlend(Channel(src, 16), Channel(src, 8), Channel(src, 0), Channel(src, 24), dst)
  }

  // What a surface makes of a pixel that it covers.
  function Over(s: Surface, x: nat, y: nat, dst: nat): nat {
    var src := Source(s, x, y);
    if s.blend == Opaque then src
    else if s.pixels.None? then Blend(src, dst)
    else Through(src, dst)
  }

  // A transparent pixel of a picture leaves what is there, an opaque one replaces it.
  function Through(src: nat, dst: nat): nat {
    if Channel(src, 24) == 0 then dst else if Channel(src, 24) == 255 then src else Blend(src, dst)
  }

  // Alpha, red, green and blue, from the top.
  lemma ChannelsAre(px: nat)
    ensures Channel(px, 24) == px / 0x100_0000 % 256 && Channel(px, 16) == px / 0x1_0000 % 256
    ensures Channel(px, 8) == px / 0x100 % 256 && Channel(px, 0) == px % 256
  {
    Bits.Pow2Words();
    assert Bits.Pow2(0) == 1;
  }

  // The mean of a source channel with weight a and one of what is there, cut off to an integer.
  predicate IsMean(c: nat, src: nat, a: nat, dst: nat)
    requires a <= 255
  {
    c == (src * a + dst * (255 - a)) / 255 && Between(c, src, dst)
  }

  lemma MixIsMean(src: nat, a: nat, dst: nat)
    requires src < 256 && dst < 256 && a <= 255
    ensures IsMean(Mix(src, a, dst), src, a, dst)
  {
    MixBetween(src, a, dst);
  }

  lemma BlendIs(src: nat, d: nat)
    ensures var (a, px) := (Channel(src, 24), Blend(src, d));
            && Channel(px, 24) == 0xFF && IsMean(Channel(px, 16), Channel(src, 16), a, Channel(d, 16))
            && IsMean(Channel(px, 8), Channel(src, 8), a, Channel(d, 8)) && IsMean(Channel(px, 0), Channel(src, 0), a, Channel(d, 0))
  {
    var a := Channel(src, 24);
    BlendChannels(Channel(src, 16), Channel(src, 8), Channel(src, 0), a, d);
    MixIsMean(Channel(src, 16), a, Channel(d, 16));
    MixIsMean(Channel(src, 8), a, Channel(d, 8));
    MixIsMean(Channel(src, 0), a, Channel(d, 0));
  }

  // What a surface leaves of a pixel d that it covers: an opaque one its own pixel; an alpha one the mean of its
  // pixel and d, red with red, green with green and blue with blue, under full alpha, except that a picture's
  // transparent pixels keep d and its opaque ones replace it.
  lemma OverIs(s: Surface, x: nat, y: nat, d: nat)
    requires Covers(s, x, y) && (s.pixels.Some? ==> (y - s.y) * s.pixels.value.stride + (x - s.x) < |s.pixels.value.data|)
    ensures var src := if s.pixels.Some? then s.pixels.value.data[(y - s.y) * s.pixels.value.stride + (x - s.x)] else s.color;
            var (a, px) := (src / 0x100_0000 % 256, Over(s, x, y, d));
            if s.blend == Opaque then px == src
            else if s.pixels.Some? && a == 0 then px == d
            else if s.pixels.Some? && a == 255 then px == src
            else
              && px / 0x100_0000 % 256 == 0xFF
              && IsMean(px / 0x1_0000 % 256, src / 0x1_0000 % 256, a, d / 0x1_0000 % 256)
              && IsMean(px / 0x100 % 256, src / 0x100 % 256, a, d / 0x100 % 256)
              && IsMean(px % 256, src % 256, a, d % 256)
  {
    var src := Source(s, x, y);
    SourceIs(s, x, y);
    ChannelsAre(src);
    ChannelsAre(d);
    ChannelsAre(Blend(src, d));
    BlendIs(src, d);
  }

  lemma SourceIs(s: Surface, x: nat, y: nat)
    requires Covers(s, x, y) && (s.pixels.Some? ==> (y - s.y) * s.pixels.value.stride + (x - s.x) < |s.pixels.value.data|)
    ensures s.pixels.Some? ==> (y - s.y) * s.pixels.value.stride + (x - s.x) >= 0
    ensures Source(s, x, y) ==
              if s.pixels.Some? then s.pixels.value.data[(y - s.y) * s.pixels.value.stride + (x - s.x)] else s.color
  {
  }

  function Painted(s: Surface, x: nat, y: nat, dst: nat): nat {
    if Covers(s, x, y) then Over(s, x, y, dst) else dst
  }

  // The painter: one surface after another.
  function Fold(slots: Slots, order: seq<nat>, x: nat, y: nat, bg: nat): nat
    requires AreSurfaces(slots, order)
  {
    if order == [] then bg
    else Painted(slots[order[|order| - 1]].value, x, y, Fold(slots, order[..|order| - 1], x, y, bg))
  }

  predicate AreSurfaces(slots: Slots, order: seq<nat>) {
    forall k :: 0 <= k < |order| ==> order[k] < |slots| && slots[order[k]].Some?
  }

  // ----- the order of painting -----

  predicate Visible(slots: Slots, h: nat) {
    h < |slots| && slots[h].Some? && slots[h].value.visible
  }

  // By z order, then by handle.
  predicate Below(slots: Slots, a: nat, b: nat)
    requires Visible(slots, a) && Visible(slots, b)
  {
    slots[a].value.zOrder < slots[b].value.zOrder || (slots[a].value.zOrder == slots[b].value.zOrder && a < b)
  }

  predicate AllVisible(slots: Slots, order: seq<nat>) {
    forall k :: 0 <= k < |order| ==> Visible(slots, order[k])
  }

  predicate Ascending(slots: Slots, order: seq<nat>) {
    AllVisible(slots, order) && forall p, q :: 0 <= p < q < |order| ==> Below(slots, order[p], order[q])
  }

  // Exactly the visible surfaces, each once, from the lowest.
  ghost predicate PaintOrder(slots: Slots, order: seq<nat>) {
    Ascending(slots, order) && forall h: nat :: h in order <==> Visible(slots, h)
  }

  lemma AscendingTail(slots: Slots, a: seq<nat>)
    requires Ascending(slots, a) && a != []
    ensures Ascending(slots, a[1..]) && a[0] !in a[1..] && forall h :: h in a <==> h == a[0] || h in a[1..]
  {
    assert a == [a[0]] + a[1..];
  }

  lemma NotEmpty(a: seq<nat>, b: seq<nat>)
    requires a != [] && forall h :: h in a ==> h in b
    ensures b != []
  {
    assert a[0] in b;
  }

  // There is only one such order.
  lemma {:induction false} AscendingUnique(slots: Slots, a: seq<nat>, b: seq<nat>)
    requires Ascending(slots, a) && Ascending(slots, b) && forall h :: h in a <==> h in b
    ensures a == b
    decreases |a|
  {
    if a != [] { NotEmpty(a, b); }
    if b != [] { NotEmpty(b, a); }
    if a != [] {
      assert a[0] in b && b[0] in a;
      assert a[0] == b[0];
      AscendingTail(slots, a);
      AscendingTail(slots, b);
      AscendingUnique(slots, a[1..], b[1..]);
    }
  }

  lemma PaintOrderUnique(slots: Slots, a: seq<nat>, b: seq<nat>)
    requires PaintOrder(slots, a) && PaintOrder(slots, b)
    ensures a == b
  {
    AscendingUnique(slots, a, b);
  }

  // ----- the pixels of a buffer -----

  function Row(i: nat, stride: nat): nat { if stride == 0 then 0 else i / stride }

  function Col(i: nat, stride: nat): nat { if stride == 0 then 0 else i % stride }

  // Where a row begins.
  function Base(row: nat, stride: nat): nat { row * stride }

  lemma Span(i: nat, row: nat, stride: nat, x0: nat, x1: nat)
    requires x1 <= stride
    ensures (Row(i, stride) == row && x0 <= Col(i, stride) < x1) <==> Base(row, stride) + x0 <= i < Base(row, stride) + x1
  {
    if stride > 0 {
      assert i == (i / stride) * stride + i % stride;
      if Base(row, stride) + x0 <= i < Base(row, stride) + x1 {
        Bits.DivUnique(i, stride, row, i - row * stride);
      }
    }
  }

  // One row, from x0 on up to x1, painted over.
  ghost predicate RowPainted(before: seq<nat>, after: seq<nat>, s: Surface, stride: nat, row: nat, x0: nat, x1: nat) {
    && |after| == |before|
    && forall i :: 0 <= i < |before| ==>
         after[i] == if Base(row, stride) + x0 <= i < Base(row, stride) + x1 then Over(s, i - Base(row, stride), row, before[i]) else before[i]
  }

  predicate InRect(i: nat, stride: nat, x0: nat, x1: nat, y0: nat, y1: nat) {
    x0 <= Col(i, stride) < x1 && y0 <= Row(i, stride) < y1
  }

  ghost predicate RectPainted(before: seq<nat>, after: seq<nat>, s: Surface, stride: nat, x0: nat, x1: nat, y0: nat, y1: nat) {
    && |after| == |before|
    && forall i :: 0 <= i < |before| ==>
         after[i] == if InRect(i, stride, x0, x1, y0, y1) then Over(s, Col(i, stride), Row(i, stride), before[i]) else before[i]
  }

  lemma RowExtends(before: seq<nat>, mid: seq<nat>, after: seq<nat>, s: Surface, stride: nat, x0: nat, x1: nat, y0: nat, row: nat)
    requires x1 <= stride && y0 <= row
    requires RectPainted(before, mid, s, stride, x0, x1, y0, row) && RowPainted(mid, after, s, stride, row, x0, x1)
    ensures RectPainted(before, after, s, stride, x0, x1, y0, row + 1)
  {
    forall i | 0 <= i < |before|
      ensures after[i] == if InRect(i, stride, x0, x1, y0, row + 1) then Over(s, Col(i, stride), Row(i, stride), before[i]) else before[i]
    {
      Span(i, row, stride, x0, x1);
      assert Row(i, stride) == row ==> mid[i] == before[i];
      if Row(i, stride) == row && x0 <= Col(i, stride) < x1 {
        assert i - Base(row, stride) == Col(i, stride) by { ColOf(i, row, stride); }
      }
    }
  }

  lemma ColOf(i: nat, row: nat, stride: nat)
    requires stride > 0 && Row(i, stride) == row
    ensures i == Base(row, stride) + Col(i, stride)
  {
  }

  // ----- painting -----

  // What painting a surface takes for granted: no wrap of its far corner, and enough pixels.
  predicate Promised(s: Surface) {
    && FitsWord(s)
    && (s.pixels.Some? ==>
         && s.width <= s.pixels.value.stride && Base(s.height, s.pixels.value.stride) < U32
         && Base(s.height, s.pixels.value.stride) <= |s.pixels.value.data|)
  }

  // What is off the screen is never looked at further.
  predicate PromisedOn(s: Surface, width: nat, height: nat) {
    s.x < width && s.y < height ==> Promised(s)
  }

  lemma SourceAt(s: Surface, row: nat, col: nat)
    requires s.pixels.Some? && Promised(s) && row < s.height && col < s.width
    ensures var k := Base(row, s.pixels.value.stride) + col;
            k < |s.pixels.value.data| && Source(s, s.x + col, s.y + row) == s.pixels.value.data[k]
  {
    var stride := s.pixels.value.stride;
    Bits.MulMono(row + 1, s.height, stride);
    assert (row + 1) * stride == row * stride + stride;
    assert (s.y + row - s.y) * stride == Base(row, stride);
  }

  // The row's next pixel.
  lemma RowNext(before: seq<nat>, mid: seq<nat>, after: seq<nat>, s: Surface, stride: nat, row: nat, x0: nat, x: nat, v: nat)
    requires RowPainted(before, mid, s, stride, row, x0, x) && x0 <= x && Base(row, stride) + x < |mid|
    requires after == mid[Base(row, stride) + x := v] && v == Over(s, x, row, mid[Base(row, stride) + x])
    ensures RowPainted(before, after, s, stride, row, x0, x + 1)
  {
  }

  // A pixel of the clipped rectangle lies in the buffer.
  lemma InBuffer(row: nat, stride: nat, height: nat, x1: nat, size: nat)
    requires row < height && x1 <= stride && Base(height, stride) <= size
    ensures Base(row, stride) + x1 <= size
  {
    Bits.MulMono(row + 1, height, stride);
    assert (row + 1) * stride == row * stride + stride;
  }

  function Min(a: nat, b: nat): nat { if a < b then a else b }

  class Compositor {
    const surfaces: array<Option<Surface>>
    var width: nat
    var height: nat
    var bgColor: nat

    ghost predicate Valid()
      reads this
    {
      surfaces.Length == MAX_SURFACES
    }

    method PaintSolid(buf: array<nat>, stride: nat, s: Surface)
      requires s.pixels.None? && Promised(s) && s.x < width <= stride && s.y < height && Base(height, stride) < U32 && Base(height, stride) <= buf.Length
      modifies buf
      ensures RectPainted(old(buf[..]), buf[..], s, stride, s.x, Min(s.x + s.width, width), s.y, Min(s.y + s.height, height))
    {
      var xEnd, yEnd := Min(s.x + s.width, width), Min(s.y + s.height, height);
      ghost var before := buf[..];
      match s.blend {
        case Opaque =>
          for row := s.y to yEnd
            invariant RectPainted(before, buf[..], s, stride, s.x, xEnd, s.y, row)
          {
            ghost var mid := buf[..];
            var rowBase := row * stride;
            InBuffer(row, stride, height, xEnd, buf.Length);
            for col := s.x to xEnd
              invariant RowPainted(mid, buf[..], s, stride, row, s.x, col)
            {
              buf[rowBase + col] := s.color;
            }
            RowExtends(before, mid, buf[..], s, stride, s.x, xEnd, s.y, row);
          }
        case Alpha =>
          var srcA, srcR, srcG, srcB := Channel(s.color, 24), Channel(s.color, 16), Channel(s.color, 8), Channel(s.color, 0);
          for row := s.y to yEnd
            invariant RectPainted(before, buf[..], s, stride, s.x, xEnd, s.y, row)
          {
            ghost var mid := buf[..];
            var rowBase := row * stride;
            InBuffer(row, stride, height, xEnd, buf.Length);
            for col := s.x to xEnd
              invariant RowPainted(mid, buf[..], s, stride, row, s.x, col)
            {
              var dst := buf[rowBase + col];
              buf[rowBase + col] := AlphaBlend(srcR, srcG, srcB, srcA, dst);
            }
            RowExtends(before, mid, buf[..], s, stride, s.x, xEnd, s.y, row);
          }
      }
    }

    method PaintPixels(buf: array<nat>, stride: nat, s: Surface)
      requires s.pixels.Some? && Promised(s) && s.x < width <= stride && s.y < height && Base(height, stride) < U32 && Base(height, stride) <= buf.Length
      modifies buf
      ensures RectPainted(old(buf[..]), buf[..], s, stride, s.x, Min(s.x + s.width, width), s.y, Min(s.y + s.height, height))
    {
      var xEnd, yEnd := Min(s.x + s.width, width), Min(s.y + s.height, height);
      var clipW, clipH := xEnd - s.x, yEnd - s.y;
      ghost var before := buf[..];
      for row := 0 to clipH
        invariant RectPainted(before, buf[..], s, stride, s.x, xEnd, s.y, s.y + row)
      {
        ghost var mid := buf[..];
        InBuffer(s.y + row, stride, height, xEnd, Base(height, stride));
        PixelRow(buf, stride, s, row, clipW);
        RowExtends(before, mid, buf[..], s, stride, s.x, xEnd, s.y, s.y + row);
      }
    }

    // The body of its loop.
    method PixelRow(buf: array<nat>, stride: nat, s: Surface, row: nat, clipW: nat)
      requires s.pixels.Some? && Promised(s) && row < s.height && clipW <= s.width
      requires Base(s.y + row, stride) + s.x + clipW < U32 && Base(s.y + row, stride) + s.x + clipW <= buf.Length
      modifies buf
      ensures RowPainted(old(buf[..]), buf[..], s, stride, s.y + row, s.x, s.x + clipW)
    {
      match s.blend {
        case Opaque =>
          if clipW == s.width {
            CopyRow(buf, stride, s, row, clipW);
          } else {
            ClippedRow(buf, stride, s, row, clipW);
          }
        case Alpha =>
          AlphaRow(buf, stride, s, row, clipW);
      }
    }

    // The fast path: a whole row at once.
    method CopyRow(buf: array<nat>, stride: nat, s: Surface, row: nat, clipW: nat)
      requires s.pixels.Some? && Promised(s) && s.blend == Opaque && row < s.height && clipW <= s.width
      requires Base(s.y + row, stride) + s.x + clipW < U32 && Base(s.y + row, stride) + s.x + clipW <= buf.Length
      modifies buf
      ensures RowPainted(old(buf[..]), buf[..], s, stride, s.y + row, s.x, s.x + clipW)
    {
      var pix := s.pixels.value;
      var dstBase, srcBase := (s.y + row) * stride + s.x, row * pix.stride;
      assert srcBase + clipW <= |pix.data| by { InBuffer(row, pix.stride, s.height, clipW, |pix.data|); }
      var srcRow := pix.data[srcBase..srcBase + clipW];
      forall k | 0 <= k < clipW ensures srcRow[k] == Source(s, s.x + k, s.y + row) {
        SourceAt(s, row, k);
      }
      forall i | dstBase <= i < dstBase + clipW {
        buf[i] := srcRow[i - dstBase];
      }
    }

    method ClippedRow(buf: array<nat>, stride: nat, s: Surface, row: nat, clipW: nat)
      requires s.pixels.Some? && Promised(s) && s.blend == Opaque && row < s.height && clipW <= s.width
      requires Base(s.y + row, stride) + s.x + clipW < U32 && Base(s.y + row, stride) + s.x + clipW <= buf.Length
      modifies buf
      ensures RowPainted(old(buf[..]), buf[..], s, stride, s.y + row, s.x, s.x + clipW)
    {
      var pix := s.pixels.value;
      var dstBase, srcBase := (s.y + row) * stride, row * pix.stride;
      for col := 0 to clipW
        invariant RowPainted(old(buf[..]), buf[..], s, stride, s.y + row, s.x, s.x + col)
      {
        SourceAt(s, row, col);
        var srcPx := pix.data[srcBase + col];
        buf[dstBase + (s.x + col)] := srcPx;
      }
    }

    method AlphaRow(buf: array<nat>, stride: nat, s: Surface, row: nat, clipW: nat)
      requires s.pixels.Some? && Promised(s) && s.blend == Alpha && row < s.height && clipW <= s.width
      requires Base(s.y + row, stride) + s.x + clipW < U32 && Base(s.y + row, stride) + s.x + clipW <= buf.Length
      modifies buf
      ensures RowPainted(old(buf[..]), buf[..], s, stride, s.y + row, s.x, s.x + clipW)
    {
      var pix := s.pixels.value;
      var dstBase, srcBase := (s.y + row) * stride, row * pix.stride;
      for col := 0 to clipW
        invariant RowPainted(old(buf[..]), buf[..], s, stride, s.y + row, s.x, s.x + col)
      {
        ghost var mid := buf[..];
        SourceAt(s, row, col);
        AlphaPixel(buf, dstBase + (s.x + col), pix.data[srcBase + col]);
        RowNext(old(buf[..]), mid, buf[..], s, stride, s.y + row, s.x, s.x + col, buf[dstBase + (s.x + col)]);
      }
    }

    // The body of its loop.
    method AlphaPixel(buf: array<nat>, dstIdx: nat, srcPx: nat)
      requires dstIdx < buf.Length
      modifies buf
      ensures buf[..] == old(buf[..])[dstIdx := Through(srcPx, old(buf[dstIdx]))]
    {
      var srcA := Channel(srcPx, 24);
      if srcA == 0 { return; }
      if srcA == 255 {
        buf[dstIdx] := srcPx;
        return;
      }
      var srcR, srcG, srcB := Channel(srcPx, 16), Channel(srcPx, 8), Channel(srcPx, 0);
      var dst := buf[dstIdx];
      buf[dstIdx] := AlphaBlend(srcR, srcG, srcB, srcA, dst);
    }

    // A surface changes exactly the pixels of the screen that it covers.
    method PaintSurface(buf: array<nat>, stride: nat, s: Surface)
      requires PromisedOn(s, width, height) && width <= stride && Base(height, stride) < U32 && Base(height, stride) <= buf.Length
      modifies buf
      ensures OnScreen(old(buf[..]), buf[..], s, stride, width, height)
    {
      if s.x >= width || s.y >= height { return; }
      var maxOffset := Min(s.y + s.height, height) * stride;
      Bits.MulMono(Min(s.y + s.height, height), height, stride);
      if maxOffset > buf.Length { return; }
      match s.pixels {
        case None => PaintSolid(buf, stride, s);
        case Some(_) => PaintPixels(buf, stride, s);
      }
    }

    // The visible handles, in the order of the table.
    method CollectVisible(order: array<nat>) returns (count: nat)
      requires Valid() && order.Length == MAX_SURFACES
      modifies order
      ensures count <= MAX_SURFACES && CollectedUpTo(surfaces[..], order[..count], MAX_SURFACES)
    {
      count := 0;
      ghost var slots := surfaces[..];
      for i := 0 to MAX_SURFACES
        invariant count <= i && surfaces[..] == slots && CollectedUpTo(slots, order[..count], i)
      {
        if surfaces[i].Some? && surfaces[i].value.visible {
          ghost var before := order[..count];
          order[count] := i;
          count := count + 1;
          assert order[..count] == before + [i];
        }
      }
    }

    // Insertion sort: each element sinks below the ones of a higher z order.
    method SortByZ(order: array<nat>, count: nat)
      requires Valid() && count <= order.Length && CollectedUpTo(surfaces[..], order[..count], MAX_SURFACES)
      modifies order
      ensures PaintOrder(surfaces[..], order[..count])
    {
      ghost var slots := surfaces[..];
      ghost var start := order[..count];
      if count == 0 { return; }
      for i := 1 to count
        invariant surfaces[..] == slots && Permuted(slots, start, order[..count], i)
        invariant Ascending(slots, order[..count][..i])
      {
        Sink(order, count, i, start);
      }
      assert order[..count][..count] == order[..count];
      SameMembers(start, order[..count]);
    }

    method Sink(order: array<nat>, count: nat, i: nat, ghost start: seq<nat>)
      requires Valid() && 0 < i < count <= order.Length
      requires Permuted(surfaces[..], start, order[..count], i) && Ascending(surfaces[..], order[..count][..i])
      modifies order
      ensures Permuted(surfaces[..], start, order[..count], i + 1) && Ascending(surfaces[..], order[..count][..i + 1])
    {
      ghost var slots, all := surfaces[..], order[..count];
      var j := i;
      SinkStart(slots, start, all, i);
      while j > 0
        invariant 0 <= j <= i && order[..count] == all
        invariant Permuted(slots, start, all, i + 1) && Sinking(slots, all[..i + 1], j)
      {
        assert all[j - 1] == order[j - 1] && all[j] == order[j];
        assert Visible(slots, all[j - 1]) && Visible(slots, all[j]);
        var a := surfaces[order[j - 1]].value.zOrder;
        var b := surfaces[order[j]].value.zOrder;
        if a > b {
          order[j - 1], order[j] := order[j], order[j - 1];
          SinkStep(slots, start, all, i, j);
          all := all[j - 1 := all[j]][j := all[j - 1]];
          j := j - 1;
        } else {
          break;
        }
      }
      Settled(slots, all[..i + 1], j);
    }

    method Clear(buf: array<nat>, total: nat)
      requires total <= buf.Length
      modifies buf
      ensures forall k :: 0 <= k < buf.Length ==> buf[k] == if k < total then bgColor else old(buf[k])
    {
      for i := 0 to total
        invariant forall k :: 0 <= k < buf.Length ==> buf[k] == if k < i then bgColor else old(buf[k])
      {
        buf[i] := bgColor;
      }
    }

    // Every pixel of the screen becomes the fold over the one order of painting; the stride's rest of a
    // row becomes the background, and what lies behind the last row stays.
    method Compose(buf: array<nat>, stride: nat) returns (ghost painted: seq<nat>)
      requires Valid() && width <= stride && Base(height, stride) < U32 && Base(height, stride) <= buf.Length
      requires forall h: nat :: Visible(surfaces[..], h) ==> PromisedOn(surfaces[h].value, width, height)
      modifies buf
      ensures PaintOrder(surfaces[..], painted)
      ensures IsComposed(surfaces[..], painted, stride, width, height, bgColor, old(buf[..]), buf[..])
    {
      ghost var slots, start := surfaces[..], buf[..];
      Clear(buf, stride * height);
      var order := new nat[MAX_SURFACES](_ => 0);
      var count := CollectVisible(order);
      SortByZ(order, count);
      painted := order[..count];
      PaintAll(buf, stride, order, count, start);
    }

    // Over the cleared buffer, one surface after the other.
    method PaintAll(buf: array<nat>, stride: nat, order: array<nat>, count: nat, ghost start: seq<nat>)
      requires Valid() && width <= stride && Base(height, stride) < U32 && Base(height, stride) <= buf.Length && order != buf && count <= order.Length
      requires PaintOrder(surfaces[..], order[..count])
      requires forall h: nat :: Visible(surfaces[..], h) ==> PromisedOn(surfaces[h].value, width, height)
      requires IsComposed(surfaces[..], [], stride, width, height, bgColor, start, buf[..])
      modifies buf
      ensures IsComposed(surfaces[..], order[..count], stride, width, height, bgColor, start, buf[..])
    {
      ghost var slots, painted := surfaces[..], order[..count];
      for k := 0 to count
        invariant IsComposed(slots, painted[..k], stride, width, height, bgColor, start, buf[..])
      {
        ghost var before := buf[..];
        assert painted[k] == order[k] && Visible(slots, painted[k]);
        PaintSurface(buf, stride, surfaces[order[k]].value);
        PaintOne(slots, painted, k, stride, width, height, bgColor, start, before, buf[..]);
      }
      assert painted[..count] == painted;
    }

    method AddSurface(surface: Surface) returns (r: Option<nat>)
      requires Valid()
      modifies surfaces
      ensures r.None? <==> (surface.width == 0 || surface.height == 0 || surface.width > 8192 || surface.height > 8192
                           || forall h :: 0 <= h < 32 ==> old(surfaces[h]).Some?)
      ensures r.None? ==> surfaces[..] == old(surfaces[..])
      ensures r.Some? ==> r.value < 32 && old(surfaces[r.value]).None? && surfaces[..] == old(surfaces[..])[r.value := Some(surface)]
      ensures r.Some? ==> forall h :: 0 <= h < r.value ==> old(surfaces[h]).Some?
    {
      if surface.width == 0 || surface.height == 0 { return None; }
      if surface.width > MAX_DIM || surface.height > MAX_DIM { return None; }
      for i := 0 to MAX_SURFACES
        invariant surfaces[..] == old(surfaces[..])
        invariant forall h :: 0 <= h < i ==> surfaces[h].Some?
      {
        if surfaces[i].None? {
          surfaces[i] := Some(surface);
          return Some(i);
        }
      }
      return None;
    }

    method RemoveSurface(handle: nat)
      requires Valid()
      modifies surfaces
      ensures surfaces[..] == if handle < MAX_SURFACES then old(surfaces[..])[handle := None] else old(surfaces[..])
    {
      if handle < MAX_SURFACES { surfaces[handle] := None; }
    }

    // The input manager's search, over the handles from the lowest.
    method HitTest(px: nat, py: nat) returns (best: Option<nat>)
      requires Valid()
      ensures IsHit(surfaces[..], px, py, best)
    {
      best := None;
      var bestZ: int := -1;
      ghost var slots := surfaces[..];
      for handle := 0 to MAX_SURFACES
        invariant IsHitBefore(slots, handle, px, py, best)
        invariant bestZ == if best.Some? then slots[best.value].value.zOrder else -1
      {
        assert slots[handle] == surfaces[handle];
        if surfaces[handle].Some? {
          var surf := surfaces[handle].value;
          if !surf.visible { continue; }
          var inX := px >= surf.x && px < (surf.x + surf.width) % U32;
          var inY := py >= surf.y && py < (surf.y + surf.height) % U32;
          if inX && inY && surf.zOrder > bestZ {
            bestZ := surf.zOrder;
            best := Some(handle);
          }
        }
      }
    }
  }

  lemma SinkStart(slots: Slots, start: seq<nat>, all: seq<nat>, i: nat)
    requires i < |all| && Permuted(slots, start, all, i) && Ascending(slots, all[..i])
    ensures Permuted(slots, start, all, i + 1) && Sinking(slots, all[..i + 1], i)
  {
    assert forall p, q :: 0 <= p < q < i ==> all[..i][p] == all[p] && all[..i][q] == all[q];
  }

  // A permutation of what was collected, whose elements from i on are still in their places.
  ghost predicate Permuted(slots: Slots, start: seq<nat>, order: seq<nat>, i: nat) {
    && AllVisible(slots, order) && multiset(order) == multiset(start)
    && forall p, q :: 0 <= p < q < |order| && i <= q ==> order[p] < order[q]
  }

  lemma PermutedSwap(slots: Slots, start: seq<nat>, before: seq<nat>, after: seq<nat>, i: nat, j: nat)
    requires 0 < j < i <= |before| && Permuted(slots, start, before, i)
    requires after == before[j - 1 := before[j]][j := before[j - 1]]
    ensures Permuted(slots, start, after, i)
  {
    SwapKeeps(before, after, j);
  }

  lemma SinkStep(slots: Slots, start: seq<nat>, all: seq<nat>, i: nat, j: nat)
    requires 0 < j <= i < |all| && Permuted(slots, start, all, i + 1) && Sinking(slots, all[..i + 1], j)
    requires slots[all[j - 1]].value.zOrder > slots[all[j]].value.zOrder
    ensures var after := all[j - 1 := all[j]][j := all[j - 1]];
            Permuted(slots, start, after, i + 1) && Sinking(slots, after[..i + 1], j - 1)
  {
    var after := all[j - 1 := all[j]][j := all[j - 1]];
    PermutedSwap(slots, start, all, after, i + 1, j);
    SinkOn(slots, all[..i + 1], after[..i + 1], j);
  }

  lemma SameMembers(a: seq<nat>, b: seq<nat>)
    requires multiset(a) == multiset(b)
    ensures forall h :: h in a <==> h in b
  {
    forall h ensures h in a <==> h in b {
      assert h in a <==> h in multiset(a);
      assert h in b <==> h in multiset(b);
    }
  }

  // The whole effect of painting one surface.
  ghost predicate OnScreen(before: seq<nat>, after: seq<nat>, s: Surface, stride: nat, width: nat, height: nat) {
    && |after| == |before|
    && forall i :: 0 <= i < |before| ==>
         after[i] == if Col(i, stride) < width && Row(i, stride) < height then Painted(s, Col(i, stride), Row(i, stride), before[i]) else before[i]
  }

  // ----- the whole picture -----

  // What composing leaves at offset i.
  function Composed(slots: Slots, order: seq<nat>, stride: nat, width: nat, height: nat, bg: nat, i: nat, old_: nat): nat
    requires AreSurfaces(slots, order)
  {
    if i >= Base(height, stride) then old_
    else if Col(i, stride) < width then Fold(slots, order, Col(i, stride), Row(i, stride), bg)
    else bg
  }

  ghost predicate IsComposed(slots: Slots, order: seq<nat>, stride: nat, width: nat, height: nat, bg: nat, before: seq<nat>, after: seq<nat>)
    requires AreSurfaces(slots, order)
  {
    |after| == |before| && forall i :: 0 <= i < |before| ==> after[i] == Composed(slots, order, stride, width, height, bg, i, before[i])
  }

  lemma RowBelow(i: nat, stride: nat, height: nat)
    requires stride > 0
    ensures i < Base(height, stride) <==> Row(i, stride) < height
  {
    var row := i / stride;
    assert i == row * stride + i % stride;
    if row < height {
      Bits.MulMono(row + 1, height, stride);
      assert (row + 1) * stride == row * stride + stride;
    } else {
      Bits.MulMono(height, row, stride);
    }
  }

  // Painting one more surface is one more step of the fold, at every pixel.
  lemma PaintOne(slots: Slots, order: seq<nat>, k: nat, stride: nat, width: nat, height: nat, bg: nat, start: seq<nat>, before: seq<nat>, after: seq<nat>)
    requires AreSurfaces(slots, order) && k < |order| && width <= stride
    requires IsComposed(slots, order[..k], stride, width, height, bg, start, before)
    requires OnScreen(before, after, slots[order[k]].value, stride, width, height)
    ensures IsComposed(slots, order[..k + 1], stride, width, height, bg, start, after)
  {
    assert order[..k + 1][..k] == order[..k];
    forall i | 0 <= i < |start| ensures after[i] == Composed(slots, order[..k + 1], stride, width, height, bg, i, start[i]) {
      if stride > 0 { RowBelow(i, stride, height); }
    }
  }

  // ----- collecting and sorting -----

  // Among the first m slots.
  ghost predicate CollectedUpTo(slots: Slots, order: seq<nat>, m: nat) {
    && AllVisible(slots, order) && (forall p, q :: 0 <= p < q < |order| ==> order[p] < order[q])
    && forall h: nat :: h in order <==> h < m && Visible(slots, h)
  }

  // The array while the element at j sinks: everything but it is ascending, and it stands below what it has passed.
  ghost predicate Sinking(slots: Slots, order: seq<nat>, j: nat) {
    && j < |order| && AllVisible(slots, order)
    && (forall p, q :: 0 <= p < q < |order| && p != j && q != j ==> Below(slots, order[p], order[q]))
    && (forall q :: j < q < |order| ==> Below(slots, order[j], order[q]))
    && (forall p :: 0 <= p < |order| && p != j ==> order[p] < order[j])
  }

  // A swap keeps the elements.
  lemma SwapKeeps(before: seq<nat>, after: seq<nat>, j: nat)
    requires 0 < j < |before| && after == before[j - 1 := before[j]][j := before[j - 1]]
    ensures multiset(after) == multiset(before)
  {
  }

  lemma SinkOn(slots: Slots, before: seq<nat>, after: seq<nat>, j: nat)
    requires 0 < j < |before| && Sinking(slots, before, j)
    requires slots[before[j - 1]].value.zOrder > slots[before[j]].value.zOrder
    requires after == before[j - 1 := before[j]][j := before[j - 1]]
    ensures Sinking(slots, after, j - 1)
  {
  }

  lemma Settled(slots: Slots, order: seq<nat>, j: nat)
    requires j < |order| && Sinking(slots, order, j)
    requires j == 0 || slots[order[j - 1]].value.zOrder <= slots[order[j]].value.zOrder
    ensures Ascending(slots, order)
  {
    forall p | 0 <= p < j ensures Below(slots, order[p], order[j]) {
      if p < j - 1 { assert Below(slots, order[p], order[j - 1]); }
    }
  }

  // ----- what lies on top -----

  predicate Under(slots: Slots, x: nat, y: nat, h: nat) {
    Visible(slots, h) && Covers(slots[h].value, x, y)
  }

  predicate HitUnder(slots: Slots, x: nat, y: nat, h: nat) {
    Visible(slots, h) && Hits(slots[h].value, x, y)
  }

  // No surface that lies there wraps.
  ghost predicate NoneWraps(slots: Slots, x: nat, y: nat) {
    forall h: nat :: Under(slots, x, y, h) ==> FitsWord(slots[h].value)
  }

  lemma HitUnderIff(slots: Slots, x: nat, y: nat)
    requires NoneWraps(slots, x, y)
    ensures forall h: nat :: HitUnder(slots, x, y, h) <==> Under(slots, x, y, h)
  {
  }

  // The lowest handle among the covering surfaces of the highest z order.
  ghost predicate IsHit(slots: Slots, x: nat, y: nat, r: Option<nat>) {
    IsHitBefore(slots, |slots|, x, y, r)
  }

  // The same among the first m slots.
  ghost predicate IsHitBefore(slots: Slots, m: nat, x: nat, y: nat, r: Option<nat>) {
    match r
    case None => forall h: nat :: h < m ==> !HitUnder(slots, x, y, h)
    case Some(t) =>
      && t < m && HitUnder(slots, x, y, t)
      && forall h: nat :: h < m && HitUnder(slots, x, y, h) ==>
           slots[h].value.zOrder < slots[t].value.zOrder || (slots[h].value.zOrder == slots[t].value.zOrder && t <= h)
  }

  // The last of the surfaces painted there.
  function LastPainted(slots: Slots, order: seq<nat>, x: nat, y: nat): Option<nat>
    requires AreSurfaces(slots, order)
  {
    if order == [] then None
    else if Covers(slots[order[|order| - 1]].value, x, y) then Some(order[|order| - 1])
    else LastPainted(slots, order[..|order| - 1], x, y)
  }

  lemma {:induction false} LastIsHighest(slots: Slots, order: seq<nat>, x: nat, y: nat)
    requires Ascending(slots, order)
    ensures var last := LastPainted(slots, order, x, y);
            && (last.None? ==> forall k :: 0 <= k < |order| ==> !Under(slots, x, y, order[k]))
            && (last.Some? ==>
                 && Under(slots, x, y, last.value) && last.value in order
                 && forall k :: 0 <= k < |order| && Under(slots, x, y, order[k]) ==> order[k] == last.value || Below(slots, order[k], last.value))
    decreases |order|
  {
    if order != [] {
      LastIsHighest(slots, order[..|order| - 1], x, y);
    }
  }

  // A hit is the surface painted last there, unless several of the highest z order lie there: a click
  // then goes to the lowest handle among them, and the highest one is what shows.
  lemma HitIsLastPainted(slots: Slots, order: seq<nat>, x: nat, y: nat, hit: Option<nat>)
    requires PaintOrder(slots, order) && IsHit(slots, x, y, hit) && NoneWraps(slots, x, y)
    ensures hit.None? <==> LastPainted(slots, order, x, y).None?
    ensures hit == LastPainted(slots, order, x, y) <==>
            (forall b: nat :: hit.Some? && Under(slots, x, y, b) && slots[b].value.zOrder == slots[hit.value].value.zOrder ==> b == hit.value)
  {
    LastIsHighest(slots, order, x, y);
    HitUnderIff(slots, x, y);
    var last := LastPainted(slots, order, x, y);
    assert forall h: nat :: Under(slots, x, y, h) ==> h in order;
  }

  // Two surfaces on the same place with the same z order: the click goes to the one, and the other shows.
  lemma TiedTwice(s: Surface, x: nat, y: nat)
    requires s.visible && FitsWord(s) && Covers(s, x, y)
    ensures var slots: Slots := [Some(s), Some(s)];
            && PaintOrder(slots, [0, 1]) && NoneWraps(slots, x, y)
            && IsHit(slots, x, y, Some(0)) && LastPainted(slots, [0, 1], x, y) == Some(1)
  {
    var slots: Slots := [Some(s), Some(s)];
    assert Below(slots, 0, 1) && Visible(slots, 1);
    forall h: nat ensures h in [0, 1] <==> Visible(slots, h) { assert Visible(slots, h) ==> h == 0 || h == 1; }
  }

  predicate LetsNothingThrough(s: Surface, x: nat, y: nat) {
    s.blend == Opaque || (s.pixels.Some? && Channel(Source(s, x, y), 24) == 255)
  }

  lemma {:induction false} LastShows(slots: Slots, order: seq<nat>, x: nat, y: nat, bg: nat)
    requires Ascending(slots, order)
    ensures var (last, px) := (LastPainted(slots, order, x, y), Fold(slots, order, x, y, bg));
            && (last.None? ==> px == bg)
            && (last.Some? ==> last.value in order && Visible(slots, last.value))
            && (last.Some? && LetsNothingThrough(slots[last.value].value, x, y) ==> px == Source(slots[last.value].value, x, y))
    decreases |order|
  {
    if order != [] { LastShows(slots, order[..|order| - 1], x, y, bg); }
  }

  // Where surfaces lie, the pixel is what the last of them makes of what those before it show.
  lemma {:induction false} TopOverRest(slots: Slots, order: seq<nat>, x: nat, y: nat, bg: nat) returns (k: nat)
    requires Ascending(slots, order) && LastPainted(slots, order, x, y).Some?
    ensures k < |order| && LastPainted(slots, order, x, y) == Some(order[k]) && Ascending(slots, order[..k])
    ensures Fold(slots, order, x, y, bg) == Over(slots[order[k]].value, x, y, Fold(slots, order[..k], x, y, bg))
    decreases |order|
  {
    k := |order| - 1;
    if !Covers(slots[order[k]].value, x, y) {
      var before := order[..k];
      k := TopOverRest(slots, before, x, y, bg);
      assert before[..k] == order[..k];
    }
  }

  // What a click hits is what the composed screen shows there.
  lemma HitIsShown(slots: Slots, order: seq<nat>, stride: nat, width: nat, height: nat, bg: nat, before: seq<nat>, after: seq<nat>,
                   x: nat, y: nat, hit: Option<nat>)
    requires PaintOrder(slots, order) && IsComposed(slots, order, stride, width, height, bg, before, after)
    requires width <= stride && x < width && y < height && Base(height, stride) <= |before| && IsHit(slots, x, y, hit)
    requires forall h: nat :: Visible(slots, h) ==> PromisedOn(slots[h].value, width, height)
    ensures Base(y, stride) + x < |after|
    ensures hit.None? ==> after[Base(y, stride) + x] == bg
    ensures hit.Some? && LetsNothingThrough(slots[hit.value].value, x, y)
            && (forall b: nat :: Under(slots, x, y, b) && slots[b].value.zOrder == slots[hit.value].value.zOrder ==> b == hit.value)
            ==> after[Base(y, stride) + x] == Source(slots[hit.value].value, x, y)
  {
    var i := Base(y, stride) + x;
    InBuffer(y, stride, height, width, Base(height, stride));
    Span(i, y, stride, x, x + 1);
    HitIsLastPainted(slots, order, x, y, hit);
    LastShows(slots, order, x, y, bg);
  }
}
