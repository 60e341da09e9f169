/**
 * The renderer's bookkeeping: how image rows are divided among workers, and
 * the RGBA pixel buffer that finished pixels are written into as they
 * arrive from the workers' channel.
 */
module Render {
  /** A half-open range of rows `start..end`. */
  datatype Range = Range(start: nat, end: nat)

  /**
   * Where range `i` starts when every range holds `group` rows and the first
   * `extra` ranges one row more: the running `end` of `divide_into_ranges`.
   */
  function GroupStart(i: nat, group: nat, extra: nat): nat {
    if i == 0 then 0 else GroupStart(i - 1, group, extra) + group + (if i - 1 < extra then 1 else 0)
  }

  /** The closed form of the running end: `i` full groups plus one row per longer range so far. */
  lemma {:induction false} GroupStartClosed(i: nat, group: nat, extra: nat)
    ensures GroupStart(i, group, extra) == i * group + (if i < extra then i else extra)
  {
    if i > 0 {
      GroupStartClosed(i - 1, group, extra);
      assert i * group == (i - 1) * group + group;
    }
  }

  /** The ranges together end exactly at the last row. */
  lemma GroupsCoverRows(rows: nat, ranges: nat)
    requires 0 < ranges
    ensures GroupStart(ranges, rows / ranges, rows % ranges) == rows
  {
    GroupStartClosed(ranges, rows / ranges, rows % ranges);
    assert rows == ranges * (rows / ranges) + rows % ranges;
  }

  /**
   * The ranges `divide_into_ranges(rows, ranges)` produces: the single empty
   * range for no rows, one range per row when there are no more rows than
   * ranges, and otherwise `ranges` consecutive groups.
   */
  function Ranges(rows: nat, ranges: nat): seq<Range>
    requires rows > ranges ==> ranges > 0
  {
    if rows == 0 then [Range(0, 0)]
    else if rows <= ranges then seq(rows, i requires 0 <= i => Range(i, i + 1))
    else seq(ranges, i requires 0 <= i => Range(GroupStart(i, rows / ranges, rows % ranges), GroupStart(i + 1, rows / ranges, rows % ranges)))
  }

  /**
   * More rows than ranges: exactly `ranges` ranges, consecutive, covering
   * `0..rows`, the first `rows % ranges` of them one row longer than the rest.
   */
  lemma RangesPartitionRows(rows: nat, ranges: nat)
    requires rows > ranges > 0
    ensures var r := Ranges(rows, ranges);
      |r| == ranges && r[0].start == 0 && r[ranges - 1].end == rows
      && (forall i :: 0 < i < ranges ==> r[i].start == r[i - 1].end)
      && (forall i :: 0 <= i < ranges ==>
            r[i].start <= r[i].end && r[i].end - r[i].start == rows / ranges + (if i < rows % ranges then 1 else 0))
  {
    GroupsCoverRows(rows, ranges);
  }

  /** At most as many rows as ranges: one single-row range per row, in order; no rows: one empty range. */
  lemma RangesPerRow(rows: nat, ranges: nat)
    requires rows <= ranges
    ensures rows == 0 ==> Ranges(rows, ranges) == [Range(0, 0)]
    ensures rows > 0 ==> |Ranges(rows, ranges)| == rows
    ensures rows > 0 ==> forall i :: 0 <= i < rows ==> Ranges(rows, ranges)[i] == Range(i, i + 1)
  {
  }

  /** `divide_into_ranges`, with the loop that hands out the longer groups first. */
  method DivideIntoRanges(rows: nat, ranges: nat) returns (results: seq<Range>)
    requires rows > ranges ==> ranges > 0
    ensures results == Ranges(rows, ranges)
  {
    results := [];
    if rows == 0 {
      results := results + [Range(0, 0)];
    } else if rows <= ranges {
      for i := 0 to rows
        invariant results == seq(i, k requires 0 <= k => Range(k, k + 1))
      {
        results := results + [Range(i, i + 1)];
      }
    } else {
      var groupSize := rows / ranges;
      var remain := rows % ranges;
      ghost var extra := remain;
      var start;
      var end := 0;
      for k := 0 to ranges
        invariant end == GroupStart(k, groupSize, extra)
        invariant remain == extra - (if k < extra then k else extra)
        invariant results == seq(k, i requires 0 <= i => Range(GroupStart(i, groupSize, extra), GroupStart(i + 1, groupSize, extra)))
      {
        start := end;
        end := start + groupSize;
        if remain > 0 {
          end := end + 1;
          remain := remain - 1;
        }
        results := results + [Range(start, end)];
      }
    }
  }

  type Byte = b: int | 0 <= b < 256

  /** A finished pixel as a worker sends it: column, row and colour. */
  datatype Pixel = Pixel(x: nat, y: nat, rgb: seq<Byte>)

  /** The byte offset of pixel `(x, y)` in a buffer of rows `width` pixels wide, four bytes each. */
  function Offset(x: nat, y: nat, width: nat): nat {
    x * 4 + y * width * 4
  }

  lemma OffsetInBounds(x: nat, y: nat, width: nat, height: nat)
    requires x < width && y < height
    ensures Offset(x, y, width) + 3 < width * height * 4
  {
    assert y * width + x < (y + 1) * width by {
      assert (y + 1) * width == y * width + width;
    }
    assert (y + 1) * width <= height * width;
    assert Offset(x, y, width) == (y * width + x) * 4;
    assert width * height * 4 == (height * width) * 4;
  }

  /** The pixel lies in a `width` by `height` image and has three channels. */
  predicate InImage(p: Pixel, width: nat, height: nat) {
    p.x < width && p.y < height && |p.rgb| == 3
  }

  /** The buffer with pixel `p` written: its three channels, then an opaque alpha byte. */
  function Painted(buf: seq<Byte>, width: nat, p: Pixel): (r: seq<Byte>)
    requires |p.rgb| == 3
  {
    var o := Offset(p.x, p.y, width);
    seq(|buf|, q requires 0 <= q < |buf| =>
      if o <= q < o + 3 then p.rgb[q - o] else if q == o + 3 then 255 else buf[q])
  }

  /** The buffer with the pixels written in arrival order. */
  function PaintAll(buf: seq<Byte>, width: nat, ps: seq<Pixel>): (r: seq<Byte>)
    requires forall i :: 0 <= i < |ps| ==> |ps[i].rgb| == 3
    ensures |r| == |buf|
  {
    if ps == [] then buf else Painted(PaintAll(buf, width, ps[..|ps| - 1]), width, ps[|ps| - 1])
  }

  /** Writing a pixel changes only its four bytes: the channels, and alpha 0xFF. */
  lemma PaintedTouchesOnlyPixel(buf: seq<Byte>, width: nat, height: nat, p: Pixel)
    requires InImage(p, width, height) && |buf| == width * height * 4
    ensures var o := Offset(p.x, p.y, width); var r := Painted(buf, width, p);
      |r| == |buf| && o + 3 < |buf|
      && r[o] == p.rgb[0] && r[o + 1] == p.rgb[1] && r[o + 2] == p.rgb[2] && r[o + 3] == 255
      && forall q :: 0 <= q < |buf| && !(o <= q < o + 4) ==> r[q] == buf[q]
  {
    OffsetInBounds(p.x, p.y, width, height);
  }

  /** A byte no arriving pixel covers keeps its value. */
  lemma {:induction false} PaintAllKeepsUncovered(buf: seq<Byte>, width: nat, ps: seq<Pixel>, q: nat)
    requires forall i :: 0 <= i < |ps| ==> |ps[i].rgb| == 3
    requires q < |buf|
    requires forall i :: 0 <= i < |ps| ==> !(Offset(ps[i].x, ps[i].y, width) <= q < Offset(ps[i].x, ps[i].y, width) + 4)
    ensures PaintAll(buf, width, ps)[q] == buf[q]
  {
    if ps != [] {
      PaintAllKeepsUncovered(buf, width, ps[..|ps| - 1], q);
    }
  }

  lemma OffsetAligned(x: nat, y: nat, width: nat)
    ensures Offset(x, y, width) == 4 * (x + y * width)
  {
    assert y * width * 4 == 4 * (y * width);
  }

  /** One pixel's alpha byte never falls on another pixel's colour channels. */
  lemma AlphaNotChannel(a: Pixel, b: Pixel, width: nat)
    ensures !(Offset(b.x, b.y, width) <= Offset(a.x, a.y, width) + 3 < Offset(b.x, b.y, width) + 3)
  {
    OffsetAligned(a.x, a.y, width);
    OffsetAligned(b.x, b.y, width);
  }

  /** Every pixel that arrived is opaque afterwards. */
  lemma {:induction false} PaintAllOpaque(buf: seq<Byte>, width: nat, height: nat, ps: seq<Pixel>, i: nat)
    requires forall k :: 0 <= k < |ps| ==> ps[k].x < width && ps[k].y < height && |ps[k].rgb| == 3
    requires |buf| == width * height * 4 && i < |ps|
    ensures Offset(ps[i].x, ps[i].y, width) + 3 < |buf|
    ensures PaintAll(buf, width, ps)[Offset(ps[i].x, ps[i].y, width) + 3] == 255
  {
    OffsetInBounds(ps[i].x, ps[i].y, width, height);
    var last := ps[|ps| - 1];
    var before := ps[..|ps| - 1];
    var q := Offset(ps[i].x, ps[i].y, width) + 3;
    if i < |ps| - 1 {
      assert before[i] == ps[i];
      PaintAllOpaque(buf, width, height, before, i);
      AlphaNotChannel(ps[i], last, width);
      var prev := PaintAll(buf, width, before);
      assert prev[q] == 255;
      assert Painted(prev, width, last)[q] == 255;
    }
  }

  class ThreadedRenderer {
    var imageWidth: nat
    var imageHeight: nat
    var pixels: array<Byte>
    /** Whether a thread pool is held, i.e. a render is in progress. */
    var poolActive: bool
    /** The pixels sent by workers and not yet received. */
    var pending: seq<Pixel>
    var pixelCounter: nat
    var threadsToUse: nat

    /** The buffer holds four bytes per pixel, and every queued pixel lies in the image. */
    ghost predicate Valid()
      reads this
    {
      pixels.Length == imageWidth * imageHeight * 4
      && forall i :: 0 <= i < |pending| ==>
           pending[i].x < imageWidth && pending[i].y < imageHeight && |pending[i].rgb| == 3
    }

    /** `default`: an empty 0 by 0 image, no pool, nothing queued, one thread. */
    constructor()
      ensures Valid() && imageWidth == 0 && imageHeight == 0 && pixels.Length == 0
      ensures !poolActive && pending == [] && pixelCounter == 0 && threadsToUse == 1
    {
      imageWidth, imageHeight := 0, 0;
      pixels := new Byte[0];
      poolActive, pending, pixelCounter, threadsToUse := false, [], 0, 1;
    }

    /** `is_render_finished`: as many pixels received as the image has. */
    predicate IsRenderFinished()
      reads this
    {
      pixelCounter >= imageHeight * imageWidth
    }

    /** `is_render_in_progress`. */
    predicate IsRenderInProgress()
      reads this
    {
      poolActive
    }

    /** `get_pixels`: the RGBA buffer. */
    function GetPixels(): seq<Byte>
      reads this, pixels
    {
      pixels[..]
    }

    /** `get_image_size`: width, then height. */
    function GetImageSize(): (size: seq<nat>)
      reads this
      ensures |size| == 2 && size[0] == imageWidth && size[1] == imageHeight
    {
      [imageWidth, imageHeight]
    }

    /** `init_pixels`: records the size and allocates four zero bytes per pixel. */
    method InitPixels(width: nat, height: nat)
      modifies this
      ensures imageWidth == width && imageHeight == height
      ensures fresh(pixels) && pixels.Length == width * height * 4
      ensures forall i :: 0 <= i < pixels.Length ==> pixels[i] == 0
      ensures poolActive == old(poolActive) && pending == old(pending)
      ensures pixelCounter == old(pixelCounter) && threadsToUse == old(threadsToUse)
    {
      imageWidth := width;
      imageHeight := height;
      pixels := new Byte[width * height * 4](_ => 0);
    }

    /**
     * `start_render` for a `width` by `height` scene: nothing while a pool
     * is held; otherwise the counter is reset, the buffer reinitialised and
     * a pool taken (the workers' sends arrive through `Send`).
     */
    method StartRender(width: nat, height: nat)
      requires Valid()
      requires !poolActive ==> forall i :: 0 <= i < |pending| ==>
        pending[i].x < width && pending[i].y < height && |pending[i].rgb| == 3
      modifies this
      ensures old(poolActive) ==>
        imageWidth == old(imageWidth) && imageHeight == old(imageHeight)
        && pixels == old(pixels) && poolActive && pixelCounter == old(pixelCounter)
      ensures !old(poolActive) ==>
        imageWidth == width && imageHeight == height
        && fresh(pixels) && pixels.Length == width * height * 4
        && (forall i :: 0 <= i < pixels.Length ==> pixels[i] == 0)
        && poolActive && pixelCounter == 0
      ensures pending == old(pending)
      ensures Valid()
      ensures threadsToUse == old(threadsToUse)
    {
      if poolActive {
        return;
      }
      pixelCounter := 0;
      InitPixels(width, height);
      poolActive := true;
    }

    /** A worker's `tx.send`: the pixel joins the end of the queue. */
    method Send(p: Pixel)
      requires Valid() && InImage(p, imageWidth, imageHeight)
      modifies this
      ensures pending == old(pending) + [p]
      ensures imageWidth == old(imageWidth) && imageHeight == old(imageHeight) && pixels == old(pixels)
      ensures poolActive == old(poolActive) && pixelCounter == old(pixelCounter) && threadsToUse == old(threadsToUse)
      ensures Valid()
    {
      pending := pending + [p];
    }

    /** `set_pixel`: the three channels at the pixel's offset, then alpha 0xFF. */
    method SetPixel(p: Pixel)
      requires Valid() && InImage(p, imageWidth, imageHeight)
      modifies pixels
      ensures pixels[..] == Painted(old(pixels[..]), imageWidth, p)
    {
      var index := p.x * 4 + p.y * imageWidth * 4;
      OffsetInBounds(p.x, p.y, imageWidth, imageHeight);
      for i := 0 to 3
        invariant forall q :: 0 <= q < pixels.Length ==>
          pixels[q] == if index <= q < index + i then p.rgb[q - index] else old(pixels[q])
      {
        pixels[index + i] := p.rgb[i];
      }
      pixels[index + 3] := 0xFF;
      assert pixels[..] == Painted(old(pixels[..]), imageWidth, p);
    }

    /**
     * `check_progress`: the pool is dropped if the render had finished on
     * entry; then every queued pixel is received and written in arrival
     * order, the counter rising by one per pixel; the answer is whether any
     * pixel arrived.
     */
    method CheckProgress() returns (progressed: bool)
      requires Valid()
      modifies this, pixels
      ensures progressed <==> old(pending) != []
      ensures pending == [] && pixelCounter == old(pixelCounter) + |old(pending)|
      ensures poolActive == (old(poolActive) && !old(IsRenderFinished()))
      ensures pixels == old(pixels) && pixels[..] == PaintAll(old(pixels[..]), imageWidth, old(pending))
      ensures imageWidth == old(imageWidth) && imageHeight == old(imageHeight) && threadsToUse == old(threadsToUse)
      ensures Valid()
    {
      if poolActive && IsRenderFinished() {
        poolActive := false;
      }
      var newPixels := [];
      while pending != []
        invariant newPixels + pending == old(pending)
        invariant pixels == old(pixels) && pixels[..] == old(pixels[..]) && pixelCounter == old(pixelCounter)
        invariant imageWidth == old(imageWidth) && imageHeight == old(imageHeight) && threadsToUse == old(threadsToUse)
        invariant poolActive == (old(poolActive) && !old(IsRenderFinished()))
        decreases |pending|
      {
        newPixels := newPixels + [pending[0]];
        pending := pending[1..];
      }
      assert newPixels + [] == newPixels;
      for i := 0 to |newPixels|
        invariant pixels == old(pixels) && pending == []
        invariant imageWidth == old(imageWidth) && imageHeight == old(imageHeight) && threadsToUse == old(threadsToUse)
        invariant poolActive == (old(poolActive) && !old(IsRenderFinished()))
        invariant pixelCounter == old(pixelCounter) + i
        invariant pixels[..] == PaintAll(old(pixels[..]), imageWidth, newPixels[..i])
      {
        assert newPixels[..i + 1][..i] == newPixels[..i];
        SetPixel(newPixels[i]);
        pixelCounter := pixelCounter + 1;
      }
      assert newPixels[..|newPixels|] == newPixels;
      progressed := newPixels != [];
    }
  }
}
