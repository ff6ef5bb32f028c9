/** Rectangles of the desktop: clamping one to the framebuffer, and copying its pixels. */
module Region {
  import opened Wrappers
  import opened Bytes

  const U32_MAX: nat := 0xFFFF_FFFF

  type U32 = n: nat | n <= 0xFFFF_FFFF

  function SaturatingAdd(a: U32, b: U32): U32 { if a + b <= U32_MAX then a + b else U32_MAX }

  function Min(a: U32, b: U32): U32 { if a < b then a else b }

  datatype Region = Region(x: U32, y: U32, width: U32, height: U32) {
    /** The pixels of the rectangle, in a plane without bounds. */
    predicate Contains(px: int, py: int) { x <= px < x + width && y <= py < y + height }

    function ClampTo(fullWidth: U32, fullHeight: U32): Option<Region> {
      var left := Min(x, fullWidth);
      var top := Min(y, fullHeight);
      var right := Min(SaturatingAdd(x, width), fullWidth);
      var bottom := Min(SaturatingAdd(y, height), fullHeight);
      if right <= left || bottom <= top then None else Some(Region(left, top, right - left, bottom - top))
    }

    predicate Within(fullWidth: nat, fullHeight: nat) {
      width != 0 && height != 0 && x + width <= fullWidth && y + height <= fullHeight
    }
  }

  // ---------------------------------------------------------------- intersection

  predicate InBounds(px: int, py: int, fullWidth: nat, fullHeight: nat) { 0 <= px < fullWidth && 0 <= py < fullHeight }

  /** Clamping keeps exactly the pixels that are on the screen, and there is no result
      exactly when there is no such pixel. Saturation at the far edge costs nothing. */
  lemma ClampIsIntersection(r: Region, fullWidth: U32, fullHeight: U32)
    ensures r.ClampTo(fullWidth, fullHeight).Some? ==>
      var c := r.ClampTo(fullWidth, fullHeight).value;
      && c.Within(fullWidth, fullHeight)
      && forall px: int, py: int :: c.Contains(px, py) <==> r.Contains(px, py) && InBounds(px, py, fullWidth, fullHeight)
    ensures r.ClampTo(fullWidth, fullHeight).None? <==>
      forall px: int, py: int :: !(r.Contains(px, py) && InBounds(px, py, fullWidth, fullHeight))
  {
    if r.ClampTo(fullWidth, fullHeight).Some? {
      assert r.Contains(r.x, r.y) && InBounds(r.x, r.y, fullWidth, fullHeight);
    }
  }

  /** Two non-empty rectangles with the same pixels are the same. */
  lemma SamePixels(a: Region, b: Region)
    requires a.width > 0 && a.height > 0 && b.width > 0 && b.height > 0
    requires forall px: int, py: int :: a.Contains(px, py) <==> b.Contains(px, py)
    ensures a == b
  {
    assert a.Contains(a.x, a.y) && b.Contains(b.x, b.y);
    assert a.Contains(a.x + a.width - 1, a.y + a.height - 1) && b.Contains(b.x + b.width - 1, b.y + b.height - 1);
  }

  /** Clamping is the only rectangle that is that intersection, so clamping again changes nothing. */
  lemma ClampAgain(r: Region, fullWidth: U32, fullHeight: U32)
    requires r.ClampTo(fullWidth, fullHeight).Some?
    ensures r.ClampTo(fullWidth, fullHeight).value.ClampTo(fullWidth, fullHeight) == r.ClampTo(fullWidth, fullHeight)
  {
  }

  /** A region is left alone exactly when it lies on the screen and is not empty. */
  lemma UnchangedIff(r: Region, fullWidth: U32, fullHeight: U32)
    ensures r.ClampTo(fullWidth, fullHeight) == Some(r) <==> r.Within(fullWidth, fullHeight)
  {
  }

  // ---------------------------------------------------------------- images

  /** Four bytes a pixel, row after row. */
  predicate Sized(data: seq<Byte>, width: nat, height: nat) { |data| == width * height * 4 }

  lemma PixelFits(width: nat, height: nat, px: nat, py: nat, c: nat)
    requires px < width && py < height && c < 4
    ensures 0 <= (py * width + px) * 4 + c < width * height * 4
  {
    assert py * width + width == (py + 1) * width;
    assert (py + 1) * width <= height * width;
  }

  function Pixel(data: seq<Byte>, width: nat, height: nat, px: nat, py: nat, c: nat): Byte
    requires Sized(data, width, height) && px < width && py < height && c < 4
  {
    PixelFits(width, height, px, py, c);
    data[(py * width + px) * 4 + c]
  }

  /** `crop` is the part of the image that the region shows. */
  ghost predicate IsCrop(crop: seq<Byte>, data: seq<Byte>, fullWidth: nat, fullHeight: nat, r: Region)
    requires Sized(data, fullWidth, fullHeight) && r.Within(fullWidth, fullHeight)
  {
    && Sized(crop, r.width, r.height)
    && forall px: nat, py: nat, c: nat :: px < r.width && py < r.height && c < 4 ==>
      Pixel(crop, r.width, r.height, px, py, c) == Pixel(data, fullWidth, fullHeight, r.x + px, r.y + py, c)
  }

  /** Where byte `k` of an image belongs. */
  lemma Located(k: nat, width: nat, height: nat) returns (px: nat, py: nat, c: nat)
    requires k < width * height * 4
    ensures px < width && py < height && c < 4 && k == (py * width + px) * 4 + c
  {
    var p := k / 4;
    c := k % 4;
    assert width > 0;
    py := p / width;
    px := p % width;
    assert p == py * width + px by { DivMod(p, width); }
    if py >= height {
      Scaled(height, py, width);
    }
  }

  lemma Scaled(a: nat, b: nat, w: nat)
    requires a <= b
    ensures a * w <= b * w
  {
  }

  lemma DivMod(a: nat, b: nat)
    requires b > 0
    ensures a == a / b * b + a % b && a % b < b
  {
  }

  /** An image has one crop only: two that agree pixel by pixel agree byte for byte. */
  lemma CropIsUnique(a: seq<Byte>, b: seq<Byte>, data: seq<Byte>, fullWidth: nat, fullHeight: nat, r: Region)
    requires Sized(data, fullWidth, fullHeight) && r.Within(fullWidth, fullHeight)
    requires IsCrop(a, data, fullWidth, fullHeight, r) && IsCrop(b, data, fullWidth, fullHeight, r)
    ensures a == b
  {
    forall k | 0 <= k < |a|
      ensures a[k] == b[k]
    {
      var px, py, c := Located(k, r.width, r.height);
      assert Pixel(a, r.width, r.height, px, py, c) == Pixel(b, r.width, r.height, px, py, c);
    }
  }

  // ---------------------------------------------------------------- copying

  lemma RowFits(fullWidth: nat, fullHeight: nat, x: nat, w: nat, row: nat)
    requires row < fullHeight && x + w <= fullWidth
    ensures (row * fullWidth + x) * 4 + w * 4 <= fullWidth * fullHeight * 4
  {
    assert row * fullWidth + fullWidth == (row + 1) * fullWidth;
    assert (row + 1) * fullWidth <= fullHeight * fullWidth;
  }

  function Row(data: seq<Byte>, fullWidth: nat, fullHeight: nat, x: nat, w: nat, row: nat): seq<Byte>
    requires Sized(data, fullWidth, fullHeight) && row < fullHeight && x + w <= fullWidth
  {
    RowFits(fullWidth, fullHeight, x, w, row);
    data[(row * fullWidth + x) * 4..(row * fullWidth + x) * 4 + w * 4]
  }

  /** `n` rows from row `y` on, one after the other. */
  function Rows(data: seq<Byte>, fullWidth: nat, fullHeight: nat, r: Region, n: nat): seq<Byte>
    requires Sized(data, fullWidth, fullHeight) && r.x + r.width <= fullWidth && r.y + n <= fullHeight
  {
    if n == 0 then []
    else Rows(data, fullWidth, fullHeight, r, n - 1) + Row(data, fullWidth, fullHeight, r.x, r.width, r.y + n - 1)
  }

  lemma RowSize(data: seq<Byte>, fullWidth: nat, fullHeight: nat, x: nat, w: nat, row: nat)
    requires Sized(data, fullWidth, fullHeight) && row < fullHeight && x + w <= fullWidth
    ensures |Row(data, fullWidth, fullHeight, x, w, row)| == w * 4
  {
    var start := (row * fullWidth + x) * 4;
    RowFits(fullWidth, fullHeight, x, w, row);
    SliceSize(data, start, w * 4);
  }

  lemma SliceSize(data: seq<Byte>, start: nat, n: nat)
    requires start + n <= |data|
    ensures |data[start..start + n]| == n
  {
  }

  lemma OneMoreRow(size: nat, w: nat, n: nat)
    requires n > 0 && size == w * (n - 1) * 4
    ensures size + w * 4 == w * n * 4
  {
    assert w * n == w * (n - 1) + w;
  }

  lemma {:induction false} RowsSize(data: seq<Byte>, fullWidth: nat, fullHeight: nat, r: Region, n: nat)
    requires Sized(data, fullWidth, fullHeight) && r.x + r.width <= fullWidth && r.y + n <= fullHeight
    ensures Sized(Rows(data, fullWidth, fullHeight, r, n), r.width, n)
  {
    if n > 0 {
      RowsSize(data, fullWidth, fullHeight, r, n - 1);
      RowSize(data, fullWidth, fullHeight, r.x, r.width, r.y + n - 1);
      OneMoreRow(|Rows(data, fullWidth, fullHeight, r, n - 1)|, r.width, n);
    }
  }

  lemma {:induction false} RowsAt(data: seq<Byte>, fullWidth: nat, fullHeight: nat, r: Region, n: nat, px: nat, py: nat, c: nat)
    requires Sized(data, fullWidth, fullHeight) && r.x + r.width <= fullWidth && r.y + n <= fullHeight
    requires px < r.width && py < n && c < 4
    requires Sized(Rows(data, fullWidth, fullHeight, r, n), r.width, n)
    ensures Pixel(Rows(data, fullWidth, fullHeight, r, n), r.width, n, px, py, c) ==
      Pixel(data, fullWidth, fullHeight, r.x + px, r.y + py, c)
  {
    var before := Rows(data, fullWidth, fullHeight, r, n - 1);
    var row := Row(data, fullWidth, fullHeight, r.x, r.width, r.y + n - 1);
    RowsSize(data, fullWidth, fullHeight, r, n - 1);
    if py < n - 1 {
      RowsAt(data, fullWidth, fullHeight, r, n - 1, px, py, c);
      EarlierRow(before, row, r.width, n - 1, px, py, c);
    } else {
      LastRow(data, fullWidth, fullHeight, r.x, r.width, r.y + py, px, c, before, n - 1);
    }
  }

  lemma EarlierRow(before: seq<Byte>, row: seq<Byte>, w: nat, n: nat, px: nat, py: nat, c: nat)
    requires Sized(before, w, n) && px < w && py < n && c < 4
    ensures (py * w + px) * 4 + c < |before| && (before + row)[(py * w + px) * 4 + c] == Pixel(before, w, n, px, py, c)
  {
    PixelFits(w, n, px, py, c);
  }

  lemma LastRow(data: seq<Byte>, fullWidth: nat, fullHeight: nat, x: nat, w: nat, row: nat, px: nat, c: nat, before: seq<Byte>, n: nat)
    requires Sized(data, fullWidth, fullHeight) && row < fullHeight && x + w <= fullWidth && px < w && c < 4
    requires Sized(before, w, n)
    ensures (n * w + px) * 4 + c < |before + Row(data, fullWidth, fullHeight, x, w, row)|
    ensures (before + Row(data, fullWidth, fullHeight, x, w, row))[(n * w + px) * 4 + c] ==
      Pixel(data, fullWidth, fullHeight, x + px, row, c)
  {
    RowFits(fullWidth, fullHeight, x, w, row);
    var start := (row * fullWidth + x) * 4;
    var k := px * 4 + c;
    assert |before| == n * w * 4;
    assert (n * w + px) * 4 + c == |before| + k;
    assert (row * fullWidth + (x + px)) * 4 + c == start + k;
    assert data[start..start + w * 4][k] == data[start + k];
  }

  lemma RowsAreCrop(data: seq<Byte>, fullWidth: nat, fullHeight: nat, r: Region)
    requires Sized(data, fullWidth, fullHeight) && r.Within(fullWidth, fullHeight)
    ensures IsCrop(Rows(data, fullWidth, fullHeight, r, r.height), data, fullWidth, fullHeight, r)
  {
    var rows := Rows(data, fullWidth, fullHeight, r, r.height);
    RowsSize(data, fullWidth, fullHeight, r, r.height);
    forall px: nat, py: nat, c: nat | px < r.width && py < r.height && c < 4
      ensures Pixel(rows, r.width, r.height, px, py, c) == Pixel(data, fullWidth, fullHeight, r.x + px, r.y + py, c)
    {
      RowsAt(data, fullWidth, fullHeight, r, r.height, px, py, c);
    }
  }

  method CopyRow(data: seq<Byte>, fullWidth: nat, fullHeight: nat, x: nat, w: nat, row: nat) returns (line: seq<Byte>)
    requires Sized(data, fullWidth, fullHeight) && row < fullHeight && x + w <= fullWidth
    ensures line == Row(data, fullWidth, fullHeight, x, w, row)
  {
    RowFits(fullWidth, fullHeight, x, w, row);
    var start := (row * fullWidth + x) * 4;
    line := data[start..start + w * 4];
  }

  /** Copies the pixels of a region; nothing for one that is empty or reaches off the screen. */
  method CopyRgbaRegion(data: seq<Byte>, fullWidth: nat, fullHeight: nat, region: Region) returns (r: Option<seq<Byte>>)
    requires Sized(data, fullWidth, fullHeight)
    ensures r.Some? <==> region.Within(fullWidth, fullHeight)
    ensures r.Some? ==> IsCrop(r.value, data, fullWidth, fullHeight, region)
  {
    var x, y, w, h := region.x, region.y, region.width, region.height;
    if w == 0 || h == 0 || x + w > fullWidth || y + h > fullHeight {
      return None;
    }
    var out := [];
    for row := y to y + h
      invariant out == Rows(data, fullWidth, fullHeight, region, row - y)
    {
      assert y + (row - y) == row && row - y + 1 == row + 1 - y;
      var line := CopyRow(data, fullWidth, fullHeight, x, w, row);
      out := out + line;
    }
    RowsAreCrop(data, fullWidth, fullHeight, region);
    r := Some(out);
  }

  /** A clamped region can always be copied: what `CopyRgbaRegion` refuses, clamping never yields. */
  method CopyClamped(data: seq<Byte>, fullWidth: U32, fullHeight: U32, region: Region)
      returns (r: Option<(seq<Byte>, Region)>)
    requires Sized(data, fullWidth, fullHeight)
    ensures r.None? <==> region.ClampTo(fullWidth, fullHeight).None?
    ensures r.Some? ==>
      && Some(r.value.1) == region.ClampTo(fullWidth, fullHeight)
      && r.value.1.Within(fullWidth, fullHeight)
      && IsCrop(r.value.0, data, fullWidth, fullHeight, r.value.1)
  {
    ClampIsIntersection(region, fullWidth, fullHeight);
    var clamped := region.ClampTo(fullWidth, fullHeight);
    if clamped.None? {
      return None;
    }
    var copy := CopyRgbaRegion(data, fullWidth, fullHeight, clamped.value);
    r := Some((copy.value, clamped.value));
  }
}
