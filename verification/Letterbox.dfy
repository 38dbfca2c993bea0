// Aspect-preserving nearest-neighbour resize of a camera frame
// (crates/obs-rs-capture/src/nokhwa_camera.rs).
module Letterbox {
  import opened Numbers
  import opened Results

  datatype ResizeError = InvalidGeometry | ReplyTooLarge

  type dim = x: int | 0 < x <= U32_MAX witness 1

  datatype Rectangle = Rectangle(width: nat, height: nat, x: nat, y: nat)

  // `a * b / c`, at least one: the scaled extent with its saturating product.
  function Scaled(a: dim, b: dim, c: dim): nat {
    Max(Quotient(Min(a * b, USIZE_MAX), c), 1)
  }

  // The part of the canvas covered by the picture.
  function Fit(sw: dim, sh: dim, dw: dim, dh: dim): Rectangle
    ensures var r := Fit(sw, sh, dw, dh);
      && 0 < r.width && 0 < r.height
      && r.x + r.width <= dw && r.y + r.height <= dh
      && (r.width == dw || r.height == dh)
  {
    var widthLimited := Min(dw * sh, USIZE_MAX) <= Min(dh * sw, USIZE_MAX);
    ScaledFits(dw, sh, sw, dh);
    ScaledFits(dh, sw, sh, dw);
    var width := if widthLimited then dw else Scaled(dh, sw, sh);
    var height := if widthLimited then Scaled(dw, sh, sw) else dh;
    Rectangle(width, height, (dw - width) / 2, (dh - height) / 2)
  }

  // 32-bit products never saturate a 64-bit register.
  lemma ProductFits(a: dim, b: dim)
    ensures 0 < a * b <= U32_MAX * U32_MAX < USIZE_MAX
  {
    MulMonotone(a, U32_MAX, b);
    MulMonotone(b, U32_MAX, U32_MAX);
  }

  lemma ScaledFits(a: dim, b: dim, c: dim, limit: dim)
    ensures Min(a * b, USIZE_MAX) == a * b
    ensures a * b <= limit * c ==> 1 <= Scaled(a, b, c) <= limit
  {
    ProductFits(a, b);
    if a * b <= limit * c {
      DivAtLeast(a * b, c, limit + 1);
      assert (limit + 1) * c == limit * c + c;
    }
  }

  // The source coordinate that a covered output coordinate shows.
  function Nearest(offset: nat, source: dim, scaled: pos): nat {
    Quotient(offset * source, scaled)
  }

  // The clamp and the saturation around it never fire.
  lemma NearestInside(offset: nat, source: dim, scaled: pos)
    requires offset < scaled <= U32_MAX
    ensures Nearest(offset, source, scaled) < source
    ensures Min(Min(offset * source, USIZE_MAX) / scaled, source - 1) == Nearest(offset, source, scaled)
  {
    ProductFits(scaled, source);
    MulMonotone(offset, scaled, source);
    MulMonotone(offset + 1, scaled, source);
    assert (offset + 1) * source == offset * source + source;
    DivBelow(offset * source, scaled, source);
    assert offset * source < source * scaled;
  }

  // The rectangle keeps the picture's proportions, rounded down to whole pixels but never to none,
  // and stands in the middle.
  lemma FitKeepsProportions(sw: dim, sh: dim, dw: dim, dh: dim)
    ensures var r := Fit(sw, sh, dw, dh);
      && (dw * sh <= dh * sw ==> r.width == dw && r.height * sw <= Max(dw * sh, sw) < (r.height + 1) * sw)
      && (dw * sh > dh * sw ==> r.height == dh && r.width * sh <= Max(dh * sw, sh) < (r.width + 1) * sh)
      && 0 <= dw - r.width - 2 * r.x <= 1 && 0 <= dh - r.height - 2 * r.y <= 1
  {
    ProductFits(dw, sh);
    ProductFits(dh, sw);
    ScaledFloor(dw, sh, sw);
    ScaledFloor(dh, sw, sh);
    hide Scaled;
  }

  lemma ScaledFloor(a: dim, b: dim, c: dim)
    ensures Scaled(a, b, c) * c <= Max(a * b, c) < (Scaled(a, b, c) + 1) * c
  {
    ProductFits(a, b);
    DivBounds(a * b, c);
    var q := a * b / c;
    assert (q + 1) * c == q * c + c;
    DivAtLeast(a * b, c, 0);
    if q == 0 {
      assert a * b < c && Scaled(a, b, c) == 1;
    } else {
      DivAtLeast(a * b, c, 1);
    }
  }

  // A covered coordinate shows the source coordinate at its share of the width, rounded down.
  lemma NearestIsExactFloor(offset: nat, source: dim, scaled: pos)
    ensures Nearest(offset, source, scaled) * scaled <= offset * source < (Nearest(offset, source, scaled) + 1) * scaled
  {
    DivBounds(offset * source, scaled);
    var q := offset * source / scaled;
    assert (q + 1) * scaled == q * scaled + scaled;
  }

  // Byte index of a channel of a pixel.
  function Index(x: nat, y: nat, channel: nat, width: nat): nat {
    (y * width + x) * 4 + channel
  }

  lemma IndexInside(x: nat, y: nat, channel: nat, width: nat, height: nat)
    requires x < width && y < height && channel < 4
    ensures Index(x, y, channel, width) < width * height * 4
  {
    MulMonotone(y + 1, height, width);
    assert (y + 1) * width == y * width + width;
    assert height * width == width * height;
  }

  lemma IndexChannel(x: nat, y: nat, channel: nat, width: nat)
    ensures Index(x, y, channel, width) == Index(x, y, 0, width) + channel
  {
  }

  lemma IndexInjective(x: nat, y: nat, c: nat, x': nat, y': nat, c': nat, width: nat)
    requires x < width && x' < width && c < 4 && c' < 4
    requires Index(x, y, c, width) == Index(x', y', c', width)
    ensures x == x' && y == y' && c == c'
  {
    assert y * width + x == y' * width + x';
    assert (y + 1) * width == y * width + width && (y' + 1) * width == y' * width + width;
    DivUnique(y * width + x, width, y);
    DivUnique(y' * width + x', width, y');
  }

  // Every byte index is a channel of exactly one pixel.
  lemma IndexSurjective(i: nat, width: pos, height: nat)
    requires i < width * height * 4
    ensures var (x, y) := (i / 4 % width, i / 4 / width);
      x < width && y < height && Index(x, y, i % 4, width) == i
  {
    var p := i / 4;
    DivBounds(p, width);
    DivAtLeast(p, width, 0);
    assert p < width * height == height * width;
    DivBelow(p, width, height);
  }

  // What each output byte must be: nearest-neighbour inside the rectangle, opaque black outside.
  function Expected(source: seq<u8>, sw: dim, sh: dim, dw: dim, dh: dim, x: nat, y: nat, channel: nat): u8
    requires |source| == sw * sh * 4 && x < dw && y < dh && channel < 4
  {
    var r := Fit(sw, sh, dw, dh);
    if r.x <= x < r.x + r.width && r.y <= y < r.y + r.height then
      NearestInside(x - r.x, sw, r.width);
      NearestInside(y - r.y, sh, r.height);
      IndexInside(Nearest(x - r.x, sw, r.width), Nearest(y - r.y, sh, r.height), channel, sw, sh);
      source[Index(Nearest(x - r.x, sw, r.width), Nearest(y - r.y, sh, r.height), channel, sw)]
    else if channel == 3 then 255
    else 0
  }

  // At its own size a picture is copied, byte by byte.
  lemma SameSizeIsACopy(source: seq<u8>, w: dim, h: dim, x: nat, y: nat, channel: nat)
    requires |source| == w * h * 4 && x < w && y < h && channel < 4
    ensures Index(x, y, channel, w) < |source| && Expected(source, w, h, w, h, x, y, channel) == source[Index(x, y, channel, w)]
  {
    FitKeepsProportions(w, h, w, h);
    var r := Fit(w, h, w, h);
    assert r.width == w && r.height == h && r.x == 0 && r.y == 0 by {
      SameExtent(r.height, h, w);
    }
    SameCoordinate(x, w);
    SameCoordinate(y, h);
    IndexInside(x, y, channel, w, h);
    hide Fit, Nearest, Index;
  }

  lemma SameCoordinate(x: nat, w: dim)
    ensures Nearest(x, w, w) == x
  {
    assert (x + 1) * w == x * w + w;
    DivUnique(x * w, w, x);
  }

  lemma SameExtent(scaled: nat, h: dim, w: dim)
    requires scaled <= h && w * h < (scaled + 1) * w
    ensures scaled == h
  {
    if scaled < h {
      MulMonotone(scaled + 1, h, w);
      assert false;
    }
  }

  // Rows above `row`, and the first `column` columns of that row, are painted; the rest is black.
  ghost predicate Painted(output: seq<u8>, source: seq<u8>, sw: dim, sh: dim, dw: dim, dh: dim, row: nat, column: nat)
    requires |source| == sw * sh * 4 && |output| == dw * dh * 4
  {
    var r := Fit(sw, sh, dw, dh);
    forall x: nat, y: nat, c: nat :: x < dw && y < dh && c < 4 ==>
      Index(x, y, c, dw) < |output|
      && output[Index(x, y, c, dw)] ==
           if y < r.y + row || (y == r.y + row && x < r.x + column) then Expected(source, sw, sh, dw, dh, x, y, c)
           else if c == 3 then 255 else 0
  }

  // An all-black opaque canvas has nothing painted yet.
  lemma BlackCanvas(output: seq<u8>, source: seq<u8>, sw: dim, sh: dim, dw: dim, dh: dim)
    requires |source| == sw * sh * 4 && |output| == dw * dh * 4
    requires forall i :: 0 <= i < |output| ==> output[i] == if i % 4 == 3 then 255 else 0
    ensures Painted(output, source, sw, sh, dw, dh, 0, 0)
  {
    forall x: nat, y: nat, c: nat | x < dw && y < dh && c < 4
      ensures Index(x, y, c, dw) < |output| && output[Index(x, y, c, dw)] == if c == 3 then 255 else 0
    {
      IndexInside(x, y, c, dw, dh);
      assert Index(x, y, c, dw) % 4 == c;
    }
  }

  // Moving past the end of a row starts the next one.
  lemma RowDone(output: seq<u8>, source: seq<u8>, sw: dim, sh: dim, dw: dim, dh: dim, row: nat)
    requires |source| == sw * sh * 4 && |output| == dw * dh * 4
    requires Painted(output, source, sw, sh, dw, dh, row, Fit(sw, sh, dw, dh).width)
    ensures Painted(output, source, sw, sh, dw, dh, row + 1, 0)
  {
  }

  lemma AllDone(output: seq<u8>, source: seq<u8>, sw: dim, sh: dim, dw: dim, dh: dim, x: nat, y: nat, c: nat)
    requires |source| == sw * sh * 4 && |output| == dw * dh * 4
    requires Painted(output, source, sw, sh, dw, dh, Fit(sw, sh, dw, dh).height, 0)
    requires x < dw && y < dh && c < 4
    ensures Index(x, y, c, dw) < |output| && output[Index(x, y, c, dw)] == Expected(source, sw, sh, dw, dh, x, y, c)
  {
  }

  // Copying the four bytes of one source pixel paints one more column.
  lemma PixelDone(before: seq<u8>, after: seq<u8>, source: seq<u8>, sw: dim, sh: dim, dw: dim, dh: dim, row: nat, column: nat)
    requires |source| == sw * sh * 4 && |before| == |after| == dw * dh * 4
    requires row < Fit(sw, sh, dw, dh).height && column < Fit(sw, sh, dw, dh).width
    requires Painted(before, source, sw, sh, dw, dh, row, column)
    requires var r := Fit(sw, sh, dw, dh);
      var to := Index(r.x + column, r.y + row, 0, dw);
      && (forall i :: 0 <= i < |after| && !(to <= i < to + 4) ==> after[i] == before[i])
      && (forall i :: to <= i < to + 4 && i < |after| ==> after[i] == Expected(source, sw, sh, dw, dh, r.x + column, r.y + row, i - to))
    ensures Painted(after, source, sw, sh, dw, dh, row, column + 1)
  {
    hide Fit, Expected, Index;
    var r := Fit(sw, sh, dw, dh);
    var to := Index(r.x + column, r.y + row, 0, dw);
    forall x: nat, y: nat, c: nat | x < dw && y < dh && c < 4
      ensures Index(x, y, c, dw) < |after|
      ensures after[Index(x, y, c, dw)] ==
        if y < r.y + row || (y == r.y + row && x < r.x + (column + 1)) then Expected(source, sw, sh, dw, dh, x, y, c)
        else if c == 3 then 255 else 0
    {
      IndexInside(x, y, c, dw, dh);
      var i := Index(x, y, c, dw);
      assert before[i] == before[Index(x, y, c, dw)];
      IndexChannel(r.x + column, r.y + row, c, dw);
      if to <= i < to + 4 {
        IndexChannel(r.x + column, r.y + row, i - to, dw);
        IndexInjective(x, y, c, r.x + column, r.y + row, i - to, dw);
      }
    }
  }

  // The checks before any pixel is written, in their order.
  function GeometryProblem(length: nat, sw: u32, sh: u32, dw: u32, dh: u32): Option<ResizeError> {
    if sw * sh * 4 > USIZE_MAX then Some(ReplyTooLarge)
    else if length != sw * sh * 4 || sw == 0 || sh == 0 || dw == 0 || dh == 0 then Some(InvalidGeometry)
    else if dw * dh * 4 > USIZE_MAX then Some(ReplyTooLarge)
    else None
  }

  method ResizeLetterbox(source: seq<u8>, sourceWidth: u32, sourceHeight: u32, destinationWidth: u32, destinationHeight: u32)
    returns (r: Result<array<u8>, ResizeError>)
    ensures var problem := GeometryProblem(|source|, sourceWidth, sourceHeight, destinationWidth, destinationHeight);
      && (r.Ok? <==> problem.None?)
      && (r.Err? ==> problem == Some(r.error))
    ensures r.Ok? ==>
      && r.value.Length == destinationWidth * destinationHeight * 4
      && forall x: nat, y: nat, c: nat :: x < destinationWidth && y < destinationHeight && c < 4 ==>
           && Index(x, y, c, destinationWidth) < r.value.Length
           && r.value[Index(x, y, c, destinationWidth)]
                == Expected(source, sourceWidth, sourceHeight, destinationWidth, destinationHeight, x, y, c)
  {
    hide Fit, Expected, Index, Nearest;
    if sourceWidth * sourceHeight * 4 > USIZE_MAX {
      return Err(ReplyTooLarge);
    }
    if |source| != sourceWidth * sourceHeight * 4 || sourceWidth == 0 || sourceHeight == 0
       || destinationWidth == 0 || destinationHeight == 0 {
      return Err(InvalidGeometry);
    }
    var sw: dim, sh: dim, dw: dim, dh: dim := sourceWidth, sourceHeight, destinationWidth, destinationHeight;
    ProductFits(dw, dh);
    if dw * dh * 4 > USIZE_MAX {
      return Err(ReplyTooLarge);
    }
    var output := new u8[dw * dh * 4](i => if i % 4 == 3 then 255 else 0);
    var fit := Fit(sw, sh, dw, dh);
    BlackCanvas(output[..], source, sw, sh, dw, dh);
    for row := 0 to fit.height
      invariant Painted(output[..], source, sw, sh, dw, dh, row, 0)
    {
      NearestInside(row, sh, fit.height);
      var sourceY := Nearest(row, sh, fit.height);
      for column := 0 to fit.width
        invariant Painted(output[..], source, sw, sh, dw, dh, row, column)
      {
        NearestInside(column, sw, fit.width);
        var sourceX := Nearest(column, sw, fit.width);
        CopyPixel(source, output, sw, sh, dw, dh, row, column, sourceX, sourceY);
      }
      RowDone(output[..], source, sw, sh, dw, dh, row);
    }
    forall x: nat, y: nat, c: nat | x < dw && y < dh && c < 4
      ensures Index(x, y, c, dw) < output.Length && output[Index(x, y, c, dw)] == Expected(source, sw, sh, dw, dh, x, y, c)
    {
      AllDone(output[..], source, sw, sh, dw, dh, x, y, c);
    }
    return Ok(output);
  }

  // `copy_from_slice` of one RGBA pixel.
  method CopyPixel(source: seq<u8>, output: array<u8>, sw: dim, sh: dim, dw: dim, dh: dim,
                   row: nat, column: nat, sourceX: nat, sourceY: nat)
    requires |source| == sw * sh * 4 && output.Length == dw * dh * 4
    requires row < Fit(sw, sh, dw, dh).height && column < Fit(sw, sh, dw, dh).width
    requires sourceX == Nearest(column, sw, Fit(sw, sh, dw, dh).width) < sw
    requires sourceY == Nearest(row, sh, Fit(sw, sh, dw, dh).height) < sh
    requires Painted(output[..], source, sw, sh, dw, dh, row, column)
    modifies output
    ensures Painted(output[..], source, sw, sh, dw, dh, row, column + 1)
  {
    hide Painted;
    var r := Fit(sw, sh, dw, dh);
    IndexInside(sourceX, sourceY, 3, sw, sh);
    IndexInside(r.x + column, r.y + row, 3, dw, dh);
    var from, to := Index(sourceX, sourceY, 0, sw), Index(r.x + column, r.y + row, 0, dw);
    ghost var before := output[..];
    hide Fit, Nearest;
    forall i | to <= i < to + 4 {
      output[i] := source[from + (i - to)];
    }
    forall i | to <= i < to + 4
      ensures output[i] == Expected(source, sw, sh, dw, dh, r.x + column, r.y + row, i - to)
    {
      IndexChannel(sourceX, sourceY, i - to, sw);
    }
    PixelDone(before, output[..], source, sw, sh, dw, dh, row, column);
  }

  // Every three colour bytes gain an opaque alpha; an incomplete last pixel is dropped.
  method RgbToRgba(rgb: seq<u8>) returns (rgba: array<u8>)
    ensures rgba.Length == |rgb| / 3 * 4
    ensures forall i :: 0 <= i < rgba.Length ==> rgba[i] == if i % 4 == 3 then 255 else rgb[i / 4 * 3 + i % 4]
  {
    rgba := new u8[|rgb| / 3 * 4](_ => 255);
    for p := 0 to |rgb| / 3
      invariant forall i :: 0 <= i < rgba.Length ==> rgba[i] == if i % 4 == 3 || i / 4 >= p then 255 else rgb[i / 4 * 3 + i % 4]
    {
      rgba[4 * p], rgba[4 * p + 1], rgba[4 * p + 2] := rgb[3 * p], rgb[3 * p + 1], rgb[3 * p + 2];
    }
  }
}
