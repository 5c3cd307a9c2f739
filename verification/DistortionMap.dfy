/**
 The distortion map of a camera texture: for every pixel the offset, in texture
 coordinates, to the place the rectification takes it from.  The rectification maps of the
 two cameras are arbitrary.  Rounding is not modelled.
 */
module DistortionMap {
  import opened RowOrder

  datatype FrameLayout = Mono | StereoVertical | StereoHorizontal
  datatype Eye = Left | Right

  /** A rectification map: the source position, in frame pixels, of the frame pixel (x, y). */
  datatype RectifyMap = RectifyMap(mapX: (nat, nat) -> real, mapY: (nat, nat) -> real)

  datatype Camera = Camera(layout: FrameLayout, textureWidth: nat, textureHeight: nat,
                           left: RectifyMap, right: RectifyMap)
  {
    /** The size of the frame of one eye. */
    function FrameWidth(): nat {
      if layout.StereoHorizontal? then textureWidth / 2 else textureWidth
    }

    function FrameHeight(): nat {
      if layout.StereoVertical? then textureHeight / 2 else textureHeight
    }

    function MapOf(eye: Eye): RectifyMap {
      if eye.Left? then left else right
    }

    /** The corner of the texture where the frame of an eye starts; vertically the left eye is below. */
    function OriginX(eye: Eye): nat {
      if layout.StereoHorizontal? && eye.Right? then FrameWidth() else 0
    }

    function OriginY(eye: Eye): nat {
      if layout.StereoVertical? && eye.Left? then FrameHeight() else 0
    }

    /** The pixels of the texture that belong to the frame of an eye. */
    predicate InFrame(eye: Eye, x: nat, y: nat) {
      && (layout.Mono? ==> eye.Left?)
      && OriginX(eye) <= x < OriginX(eye) + FrameWidth()
      && OriginY(eye) <= y < OriginY(eye) + FrameHeight()
    }
  }

  function OffsetAlong(source: real, at: nat, size: nat, halved: bool): real
    requires size > 0
  {
    if halved then (source - at as real) / size as real / 2.0 else (source - at as real) / size as real
  }

  /** The offset stored for pixel (x, y) of the frame of an eye. */
  function Offset(c: Camera, eye: Eye, x: nat, y: nat): (real, real)
    requires x < c.FrameWidth() && y < c.FrameHeight()
  {
    (OffsetAlong(c.MapOf(eye).mapX(x, y), x, c.FrameWidth(), c.layout.StereoHorizontal?),
     OffsetAlong(c.MapOf(eye).mapY(x, y), y, c.FrameHeight(), c.layout.StereoVertical?))
  }

  /** Two numbers for each pixel, row by row. */
  function PixelAt(values: seq<real>, width: nat, x: nat, y: nat): (real, real) {
    var i := 2 * (RowStart(width, y) + x);
    if i + 1 < |values| then (values[i], values[i + 1]) else (0.0, 0.0)
  }

  /** The inner loop: one row of the frame of one eye, in steps of two numbers. */
  method FillRow(dist: array<real>, c: Camera, eye: Eye, y: nat, rowStart: nat)
    requires y < c.FrameHeight() && rowStart + 2 * c.FrameWidth() <= dist.Length
    modifies dist
    ensures RowWritten(c, eye, y, rowStart, old(dist[..]), dist[..])
  {
    var rectify := c.MapOf(eye);
    var x := 0;
    while x < c.FrameWidth() * 2
      invariant x % 2 == 0 && x <= c.FrameWidth() * 2
      invariant forall k :: 0 <= k < x / 2 ==>
                  && dist[rowStart + 2 * k] == Offset(c, eye, k, y).0
                  && dist[rowStart + 2 * k + 1] == Offset(c, eye, k, y).1
      invariant forall i :: 0 <= i < dist.Length && !(rowStart <= i < rowStart + x) ==> dist[i] == old(dist[i])
    {
      dist[rowStart + x] := OffsetAlong(rectify.mapX(x / 2, y), x / 2, c.FrameWidth(), c.layout.StereoHorizontal?);
      dist[rowStart + x + 1] := OffsetAlong(rectify.mapY(x / 2, y), y, c.FrameHeight(), c.layout.StereoVertical?);
      x := x + 2;
    }
  }

  /** What pixel (x, y) holds when `rows` rows of every frame have been filled. */
  function Filled(c: Camera, rows: nat, x: nat, y: nat, before: (real, real)): (real, real) {
    if c.InFrame(Left, x, y) && y - c.OriginY(Left) < rows then
      Offset(c, Left, x - c.OriginX(Left), y - c.OriginY(Left))
    else if c.InFrame(Right, x, y) && y - c.OriginY(Right) < rows then
      Offset(c, Right, x - c.OriginX(Right), y - c.OriginY(Right))
    else before
  }

  /** Row `y` of the frame of `eye` has been filled, and nothing else has changed. */
  ghost predicate RowFilled(c: Camera, eye: Eye, y: nat, before: seq<real>, after: seq<real>) {
    forall px: nat, py: nat | px < c.textureWidth && py < c.textureHeight ::
      PixelAt(after, c.textureWidth, px, py)
      == if py == c.OriginY(eye) + y && c.OriginX(eye) <= px < c.OriginX(eye) + c.FrameWidth() && y < c.FrameHeight()
         then Offset(c, eye, px - c.OriginX(eye), y) else PixelAt(before, c.textureWidth, px, py)
  }

  /** Pixels of different rows are stored apart. */
  lemma PixelInRow(width: nat, py: nat, px: nat, row: nat, from: nat, n: nat)
    requires px < width && from + n <= width
    ensures var start := 2 * (RowStart(width, row) + from);
            start <= 2 * (RowStart(width, py) + px) < start + 2 * n
            <==> py == row && from <= px < from + n
  {
  }

  lemma PixelIsStored(c: Camera, px: nat, py: nat)
    requires px < c.textureWidth && py < c.textureHeight
    ensures 2 * (RowStart(c.textureWidth, py) + px) + 1 < 2 * RowStart(c.textureWidth, c.textureHeight)
  {
    RowsAscend(c.textureWidth, py, c.textureHeight);
  }

  /** Where the loops start row `y` of the frame of an eye. */
  function RowOf(c: Camera, eye: Eye, y: nat): nat {
    2 * (RowStart(c.textureWidth, c.OriginY(eye) + y) + c.OriginX(eye))
  }

  /** Fills one row of one frame, `rowStart` being computed as the loops do. */
  method FillFrameRow(dist: array<real>, c: Camera, eye: Eye, y: nat, rowStart: nat)
    requires c.layout.Mono? ==> eye.Left?
    requires y < c.FrameHeight() && dist.Length == 2 * RowStart(c.textureWidth, c.textureHeight)
    requires rowStart == RowOf(c, eye, y)
    modifies dist
    ensures RowFilled(c, eye, y, old(dist[..]), dist[..])
  {
    RowsAscend(c.textureWidth, c.OriginY(eye) + y, c.textureHeight);
    FillRow(dist, c, eye, y, rowStart);
    WrittenRowIsFilled(c, eye, y, rowStart, old(dist[..]), dist[..]);
  }

  /** The numbers from `rowStart` on are the offsets of row `y`, and the others are as before. */
  ghost predicate RowWritten(c: Camera, eye: Eye, y: nat, rowStart: nat, before: seq<real>, after: seq<real>)
    requires y < c.FrameHeight() && rowStart + 2 * c.FrameWidth() <= |before| == |after|
  {
    && (forall x :: 0 <= x < c.FrameWidth() ==>
          after[rowStart + 2 * x] == Offset(c, eye, x, y).0 && after[rowStart + 2 * x + 1] == Offset(c, eye, x, y).1)
    && (forall i :: 0 <= i < |after| && !(rowStart <= i < rowStart + 2 * c.FrameWidth()) ==> after[i] == before[i])
  }

  lemma WrittenRowIsFilled(c: Camera, eye: Eye, y: nat, rowStart: nat, before: seq<real>, after: seq<real>)
    requires c.layout.Mono? ==> eye.Left?
    requires y < c.FrameHeight() && |before| == |after| == 2 * RowStart(c.textureWidth, c.textureHeight)
    requires rowStart == RowOf(c, eye, y)
    requires rowStart + 2 * c.FrameWidth() <= |after| && RowWritten(c, eye, y, rowStart, before, after)
    ensures RowFilled(c, eye, y, before, after)
  {
    forall px: nat, py: nat | px < c.textureWidth && py < c.textureHeight
      ensures PixelAt(after, c.textureWidth, px, py)
              == if py == c.OriginY(eye) + y && c.OriginX(eye) <= px < c.OriginX(eye) + c.FrameWidth()
                 then Offset(c, eye, px - c.OriginX(eye), y) else PixelAt(before, c.textureWidth, px, py)
    {
      WrittenPixel(c, eye, y, rowStart, before, after, px, py);
    }
  }

  lemma WrittenPixel(c: Camera, eye: Eye, y: nat, rowStart: nat, before: seq<real>, after: seq<real>, px: nat, py: nat)
    requires c.layout.Mono? ==> eye.Left?
    requires px < c.textureWidth && py < c.textureHeight
    requires y < c.FrameHeight() && |before| == |after| == 2 * RowStart(c.textureWidth, c.textureHeight)
    requires rowStart == RowOf(c, eye, y)
    requires rowStart + 2 * c.FrameWidth() <= |after| && RowWritten(c, eye, y, rowStart, before, after)
    ensures PixelAt(after, c.textureWidth, px, py)
            == if py == c.OriginY(eye) + y && c.OriginX(eye) <= px < c.OriginX(eye) + c.FrameWidth()
               then Offset(c, eye, px - c.OriginX(eye), y) else PixelAt(before, c.textureWidth, px, py)
  {
    PixelInRow(c.textureWidth, py, px, c.OriginY(eye) + y, c.OriginX(eye), c.FrameWidth());
    PixelIsStored(c, px, py);
  }

  /** `rows` rows of every frame have been filled. */
  ghost predicate RowsFilled(c: Camera, rows: nat, before: seq<real>, after: seq<real>) {
    forall px: nat, py: nat | px < c.textureWidth && py < c.textureHeight ::
      PixelAt(after, c.textureWidth, px, py) == Filled(c, rows, px, py, PixelAt(before, c.textureWidth, px, py))
  }

  lemma NextRows(c: Camera, y: nat, first: Eye, second: Eye, before: seq<real>, a: seq<real>, b: seq<real>,
                 after: seq<real>)
    requires y < c.FrameHeight() && !c.layout.Mono? && first != second
    requires RowsFilled(c, y, before, a) && RowFilled(c, first, y, a, b) && RowFilled(c, second, y, b, after)
    ensures RowsFilled(c, y + 1, before, after)
  {
  }

  lemma NextMonoRow(c: Camera, y: nat, before: seq<real>, a: seq<real>, after: seq<real>)
    requires y < c.FrameHeight() && c.layout.Mono?
    requires RowsFilled(c, y, before, a) && RowFilled(c, Left, y, a, after)
    ensures RowsFilled(c, y + 1, before, after)
  {
  }

  method FillHorizontal(dist: array<real>, c: Camera)
    requires c.layout.StereoHorizontal? && dist.Length == 2 * RowStart(c.textureWidth, c.textureHeight)
    modifies dist
    ensures RowsFilled(c, c.textureHeight, old(dist[..]), dist[..])
  {
    for y := 0 to c.textureHeight
      invariant RowsFilled(c, y, old(dist[..]), dist[..])
    {
      RowStartIsProduct(c.textureWidth, y);
      ghost var a := dist[..];
      var rowStart := y * c.textureWidth * 2;
      FillFrameRow(dist, c, Left, y, rowStart);
      ghost var b := dist[..];
      rowStart := y * c.textureWidth * 2 + c.FrameWidth() * 2;
      FillFrameRow(dist, c, Right, y, rowStart);
      NextRows(c, y, Left, Right, old(dist[..]), a, b, dist[..]);
    }
  }

  /** Where row `y` of the lower half starts. */
  lemma LowerRow(c: Camera, y: nat)
    requires c.layout.StereoVertical?
    ensures c.FrameHeight() * c.textureWidth * 2 + y * c.textureWidth * 2
            == 2 * RowStart(c.textureWidth, c.FrameHeight() + y)
  {
    RowStartIsProduct(c.textureWidth, c.FrameHeight() + y);
  }

  method FillVertical(dist: array<real>, c: Camera)
    requires c.layout.StereoVertical? && dist.Length == 2 * RowStart(c.textureWidth, c.textureHeight)
    modifies dist
    ensures RowsFilled(c, c.FrameHeight(), old(dist[..]), dist[..])
  {
    for y := 0 to c.FrameHeight()
      invariant RowsFilled(c, y, old(dist[..]), dist[..])
    {
      RowStartIsProduct(c.textureWidth, y);
      LowerRow(c, y);
      ghost var a := dist[..];
      var rowStart := y * c.textureWidth * 2;
      FillFrameRow(dist, c, Right, y, rowStart);
      ghost var b := dist[..];
      rowStart := c.FrameHeight() * c.textureWidth * 2 + y * c.textureWidth * 2;
      FillFrameRow(dist, c, Left, y, rowStart);
      NextRows(c, y, Right, Left, old(dist[..]), a, b, dist[..]);
    }
  }

  method FillMono(dist: array<real>, c: Camera)
    requires c.layout.Mono? && dist.Length == 2 * RowStart(c.textureWidth, c.textureHeight)
    modifies dist
    ensures RowsFilled(c, c.textureHeight, old(dist[..]), dist[..])
  {
    for y := 0 to c.textureHeight
      invariant RowsFilled(c, y, old(dist[..]), dist[..])
    {
      RowStartIsProduct(c.textureWidth, y);
      ghost var a := dist[..];
      var rowStart := y * c.textureWidth * 2;
      FillFrameRow(dist, c, Left, y, rowStart);
      NextMonoRow(c, y, old(dist[..]), a, dist[..]);
    }
  }

  /** Fills the map in place: every pixel of a frame gets its offset, every other number stays. */
  method CreateDistortionMap(dist: array<real>, c: Camera)
    requires dist.Length == c.textureHeight * c.textureWidth * 2
    modifies dist
    ensures RowsFilled(c, c.FrameHeight(), old(dist[..]), dist[..])
  {
    RowStartIsProduct(c.textureWidth, c.textureHeight);
    match c.layout
    case StereoHorizontal => FillHorizontal(dist, c);
    case StereoVertical => FillVertical(dist, c);
    case Mono => FillMono(dist, c);
  }

  // ----- What the offsets mean

  /** Each pixel belongs to the frame of at most one eye. */
  lemma FramesAreDisjoint(c: Camera, x: nat, y: nat)
    ensures !(c.InFrame(Left, x, y) && c.InFrame(Right, x, y))
  {
  }

  lemma SamePixel(width: nat, px: nat, py: nat, qx: nat, qy: nat)
    requires px < width && qx < width && RowStart(width, py) + px == RowStart(width, qy) + qx
    ensures px == qx && py == qy
  {
    if py < qy {
      RowsAscend(width, py, qy);
    } else if qy < py {
      RowsAscend(width, qy, py);
    }
  }

  /** No number of the map is written twice: eye, row, column and coordinate can be told from its place. */
  lemma WrittenOnce(c: Camera, eye: Eye, y: nat, x: nat, k: nat, eye': Eye, y': nat, x': nat, k': nat)
    requires y < c.FrameHeight() && x < c.FrameWidth() && k < 2 && (c.layout.Mono? ==> eye.Left?)
    requires y' < c.FrameHeight() && x' < c.FrameWidth() && k' < 2 && (c.layout.Mono? ==> eye'.Left?)
    ensures RowOf(c, eye, y) + 2 * x + k == RowOf(c, eye', y') + 2 * x' + k'
            <==> eye == eye' && y == y' && x == x' && k == k'
  {
    if RowOf(c, eye, y) + 2 * x + k == RowOf(c, eye', y') + 2 * x' + k' {
      SamePixel(c.textureWidth, c.OriginX(eye) + x, c.OriginY(eye) + y, c.OriginX(eye') + x', c.OriginY(eye') + y');
      FramesAreDisjoint(c, c.OriginX(eye) + x, c.OriginY(eye) + y);
    }
  }

  /** The whole map is written if and only if the frames fill the texture, that is unless an odd size was halved. */
  lemma EveryPixelIsFilledIff(c: Camera)
    requires c.textureWidth > 0 && c.textureHeight > 0
    ensures (forall x: nat, y: nat | x < c.textureWidth && y < c.textureHeight ::
               c.InFrame(Left, x, y) || c.InFrame(Right, x, y))
            <==> !(c.layout.StereoHorizontal? && c.textureWidth % 2 == 1)
                 && !(c.layout.StereoVertical? && c.textureHeight % 2 == 1)
  {
    var x, y := c.textureWidth - 1, c.textureHeight - 1;
    if || (c.layout.StereoHorizontal? && c.textureWidth % 2 == 1)
       || (c.layout.StereoVertical? && c.textureHeight % 2 == 1) {
      assert !c.InFrame(Left, x, y) && !c.InFrame(Right, x, y);
    }
  }

  /** Texture coordinates of a position given in pixels. */
  function ToUV(c: Camera, x: real, y: real): (real, real)
    requires c.textureWidth > 0 && c.textureHeight > 0
  {
    (x / c.textureWidth as real, y / c.textureHeight as real)
  }

  /** Where the rectification takes pixel (x, y) of a frame from, in texture pixels. */
  function Source(c: Camera, eye: Eye, x: nat, y: nat): (real, real) {
    (c.OriginX(eye) as real + c.MapOf(eye).mapX(x, y), c.OriginY(eye) as real + c.MapOf(eye).mapY(x, y))
  }

  lemma OffsetAlongLeadsToSource(source: real, at: nat, origin: nat, size: nat, total: nat, halved: bool)
    requires size > 0 && total == if halved then 2 * size else size
    ensures (origin + at) as real / total as real + OffsetAlong(source, at, size, halved)
            == (origin as real + source) / total as real
  {
  }

  /** A texture whose frames fill it. */
  predicate Even(c: Camera) {
    && c.textureWidth > 0 && c.textureHeight > 0
    && (c.layout.StereoHorizontal? ==> c.textureWidth % 2 == 0)
    && (c.layout.StereoVertical? ==> c.textureHeight % 2 == 0)
  }

  /** Adding its offset to a pixel's texture coordinates gives the rectification source. */
  lemma OffsetLeadsToSource(c: Camera, eye: Eye, x: nat, y: nat)
    requires Even(c) && x < c.FrameWidth() && y < c.FrameHeight()
    ensures var (u, v) := ToUV(c, (c.OriginX(eye) + x) as real, (c.OriginY(eye) + y) as real);
            var (du, dv) := Offset(c, eye, x, y);
            (u + du, v + dv) == ToUV(c, Source(c, eye, x, y).0, Source(c, eye, x, y).1)
  {
    OffsetAlongLeadsToSource(c.MapOf(eye).mapX(x, y), x, c.OriginX(eye), c.FrameWidth(), c.textureWidth,
                             c.layout.StereoHorizontal?);
    OffsetAlongLeadsToSource(c.MapOf(eye).mapY(x, y), y, c.OriginY(eye), c.FrameHeight(), c.textureHeight,
                             c.layout.StereoVertical?);
  }

  lemma OffsetAlongTimesSize(source: real, at: nat, size: nat)
    requires size > 0
    ensures OffsetAlong(source, at, size, false) * size as real == source - at as real
    ensures OffsetAlong(source, at, size, true) * (2.0 * size as real) == source - at as real
  {
  }

  /** The two numbers of pixel (x, y), in a map of `width` pixels a row. */
  lemma PixelIsAt(values: seq<real>, width: nat, x: nat, y: nat)
    requires 2 * (y * width + x) + 1 < |values|
    ensures PixelAt(values, width, x, y) == (values[2 * (y * width + x)], values[2 * (y * width + x) + 1])
  {
    RowStartIsProduct(width, y);
  }

  /** A filled pixel holds its offset, by its place in the array. */
  lemma OffsetIsAt(c: Camera, eye: Eye, before: seq<real>, after: seq<real>, x: nat, y: nat, px: nat, py: nat)
    requires RowsFilled(c, c.FrameHeight(), before, after) && |after| == 2 * (c.textureHeight * c.textureWidth)
    requires c.InFrame(eye, px, py) && px < c.textureWidth && py < c.textureHeight
    requires px == c.OriginX(eye) + x && py == c.OriginY(eye) + y
    ensures var i := py * c.textureWidth + px;
            && 0 <= 2 * i < 2 * i + 1 < |after|
            && (after[2 * i], after[2 * i + 1]) == Offset(c, eye, x, y)
  {
    PlaceInMap(c, px, py);
    PixelIsAt(after, c.textureWidth, px, py);
    FramesAreDisjoint(c, px, py);
  }

  /** In a side-by-side texture the left half leads to the places the left map names. */
  lemma LeftHalfLeadsToLeftMap(c: Camera, before: seq<real>, after: seq<real>, x: nat, y: nat)
    requires c.layout.StereoHorizontal? && RowsFilled(c, c.textureHeight, before, after)
    requires |after| == 2 * (c.textureHeight * c.textureWidth) && x < c.textureWidth / 2 && y < c.textureHeight
    ensures var i := y * c.textureWidth + x;
            && 0 <= 2 * i < 2 * i + 1 < |after|
            && after[2 * i] * (2.0 * (c.textureWidth / 2) as real) == c.left.mapX(x, y) - x as real
            && after[2 * i + 1] * c.textureHeight as real == c.left.mapY(x, y) - y as real
  {
    OffsetIsAt(c, Left, before, after, x, y, x, y);
    OffsetAlongTimesSize(c.left.mapX(x, y), x, c.textureWidth / 2);
    OffsetAlongTimesSize(c.left.mapY(x, y), y, c.textureHeight);
  }

  /** And the right half to those of the right map. */
  lemma RightHalfLeadsToRightMap(c: Camera, before: seq<real>, after: seq<real>, x: nat, y: nat)
    requires c.layout.StereoHorizontal? && RowsFilled(c, c.textureHeight, before, after)
    requires |after| == 2 * (c.textureHeight * c.textureWidth) && x < c.textureWidth / 2 && y < c.textureHeight
    ensures var i := y * c.textureWidth + (c.textureWidth / 2 + x);
            && 0 <= 2 * i < 2 * i + 1 < |after|
            && after[2 * i] * (2.0 * (c.textureWidth / 2) as real) == c.right.mapX(x, y) - x as real
            && after[2 * i + 1] * c.textureHeight as real == c.right.mapY(x, y) - y as real
  {
    OffsetIsAt(c, Right, before, after, x, y, c.textureWidth / 2 + x, y);
    OffsetAlongTimesSize(c.right.mapX(x, y), x, c.textureWidth / 2);
    OffsetAlongTimesSize(c.right.mapY(x, y), y, c.textureHeight);
  }

  /** In a texture with one frame above the other the lower half leads to the places the left map names. */
  lemma LowerHalfLeadsToLeftMap(c: Camera, before: seq<real>, after: seq<real>, x: nat, y: nat)
    requires c.layout.StereoVertical? && RowsFilled(c, c.textureHeight / 2, before, after)
    requires |after| == 2 * (c.textureHeight * c.textureWidth) && x < c.textureWidth && y < c.textureHeight / 2
    ensures var i := (c.textureHeight / 2 + y) * c.textureWidth + x;
            && 0 <= 2 * i < 2 * i + 1 < |after|
            && after[2 * i] * c.textureWidth as real == c.left.mapX(x, y) - x as real
            && after[2 * i + 1] * (2.0 * (c.textureHeight / 2) as real) == c.left.mapY(x, y) - y as real
  {
    OffsetIsAt(c, Left, before, after, x, y, x, c.textureHeight / 2 + y);
    OffsetAlongTimesSize(c.left.mapX(x, y), x, c.textureWidth);
    OffsetAlongTimesSize(c.left.mapY(x, y), y, c.textureHeight / 2);
  }

  /** And the upper half to those of the right map. */
  lemma UpperHalfLeadsToRightMap(c: Camera, before: seq<real>, after: seq<real>, x: nat, y: nat)
    requires c.layout.StereoVertical? && RowsFilled(c, c.textureHeight / 2, before, after)
    requires |after| == 2 * (c.textureHeight * c.textureWidth) && x < c.textureWidth && y < c.textureHeight / 2
    ensures var i := y * c.textureWidth + x;
            && 0 <= 2 * i < 2 * i + 1 < |after|
            && after[2 * i] * c.textureWidth as real == c.right.mapX(x, y) - x as real
            && after[2 * i + 1] * (2.0 * (c.textureHeight / 2) as real) == c.right.mapY(x, y) - y as real
  {
    OffsetIsAt(c, Right, before, after, x, y, x, y);
    OffsetAlongTimesSize(c.right.mapX(x, y), x, c.textureWidth);
    OffsetAlongTimesSize(c.right.mapY(x, y), y, c.textureHeight / 2);
  }

  /** A single frame leads to the places the left map names. */
  lemma MonoLeadsToLeftMap(c: Camera, before: seq<real>, after: seq<real>, x: nat, y: nat)
    requires c.layout.Mono? && RowsFilled(c, c.textureHeight, before, after)
    requires |after| == 2 * (c.textureHeight * c.textureWidth) && x < c.textureWidth && y < c.textureHeight
    ensures var i := y * c.textureWidth + x;
            && 0 <= 2 * i < 2 * i + 1 < |after|
            && after[2 * i] * c.textureWidth as real == c.left.mapX(x, y) - x as real
            && after[2 * i + 1] * c.textureHeight as real == c.left.mapY(x, y) - y as real
  {
    OffsetIsAt(c, Left, before, after, x, y, x, y);
    OffsetAlongTimesSize(c.left.mapX(x, y), x, c.textureWidth);
    OffsetAlongTimesSize(c.left.mapY(x, y), y, c.textureHeight);
  }

  lemma PlaceInMap(c: Camera, x: nat, y: nat)
    requires x < c.textureWidth && y < c.textureHeight
    ensures 0 <= y * c.textureWidth + x < c.textureHeight * c.textureWidth
  {
    PixelIsStored(c, x, y);
    RowStartIsProduct(c.textureWidth, y);
    RowStartIsProduct(c.textureWidth, c.textureHeight);
  }

  datatype Bounds = Bounds(uMin: real, vMin: real, uMax: real, vMax: real)

  /** The part of the texture the renderer samples for an eye. */
  function GetFrameUVBounds(eye: Eye, layout: FrameLayout): Bounds {
    match (eye, layout)
    case (Left, StereoHorizontal) => Bounds(0.0, 0.0, 0.5, 1.0)
    case (Left, StereoVertical) => Bounds(0.0, 0.5, 1.0, 1.0)
    case (Right, StereoHorizontal) => Bounds(0.5, 0.0, 1.0, 1.0)
    case (Right, StereoVertical) => Bounds(0.0, 0.0, 1.0, 0.5)
    case (_, Mono) => Bounds(0.0, 0.0, 1.0, 1.0)
  }

  predicate Within(b: Bounds, uv: (real, real)) {
    b.uMin <= uv.0 <= b.uMax && b.vMin <= uv.1 <= b.vMax
  }

  lemma WithinAlong(origin: nat, source: real, size: nat, total: nat)
    requires size > 0 && total >= size
    ensures var t := total as real;
            origin as real / t <= (origin as real + source) / t <= (origin + size) as real / t
            <==> 0.0 <= source <= size as real
  {
    var t := total as real;
    ScaleOrder(origin as real, origin as real + source, t);
    ScaleOrder(origin as real + source, (origin + size) as real, t);
  }

  lemma ScaleOrder(a: real, b: real, t: real)
    requires t > 0.0
    ensures a / t <= b / t <==> a <= b
  {
  }

  lemma BoundsOfFrame(c: Camera, eye: Eye)
    requires Even(c)
    ensures var b := GetFrameUVBounds(eye, c.layout);
            && b.uMin == c.OriginX(eye) as real / c.textureWidth as real
            && b.uMax == (c.OriginX(eye) + c.FrameWidth()) as real / c.textureWidth as real
            && b.vMin == c.OriginY(eye) as real / c.textureHeight as real
            && b.vMax == (c.OriginY(eye) + c.FrameHeight()) as real / c.textureHeight as real
  {
    HalfOf(c.textureWidth, c.textureWidth / 2);
    HalfOf(c.textureHeight, c.textureHeight / 2);
  }

  lemma HalfOf(n: nat, half: nat)
    requires n > 0
    ensures n == 2 * half ==> half as real / n as real == 0.5
    ensures n as real / n as real == 1.0 && 0.0 / n as real == 0.0
  {
  }

  /** The distorted lookup stays inside the eye's own bounds exactly when the map stays inside its frame. */
  lemma SourceStaysInBoundsIff(c: Camera, eye: Eye, x: nat, y: nat)
    requires Even(c) && x < c.FrameWidth() && y < c.FrameHeight()
    ensures var (u, v) := ToUV(c, (c.OriginX(eye) + x) as real, (c.OriginY(eye) + y) as real);
            var (du, dv) := Offset(c, eye, x, y);
            Within(GetFrameUVBounds(eye, c.layout), (u + du, v + dv))
            <==> && 0.0 <= c.MapOf(eye).mapX(x, y) <= c.FrameWidth() as real
                 && 0.0 <= c.MapOf(eye).mapY(x, y) <= c.FrameHeight() as real
  {
    OffsetLeadsToSource(c, eye, x, y);
    BoundsOfFrame(c, eye);
    WithinAlong(c.OriginX(eye), c.MapOf(eye).mapX(x, y), c.FrameWidth(), c.textureWidth);
    WithinAlong(c.OriginY(eye), c.MapOf(eye).mapY(x, y), c.FrameHeight(), c.textureHeight);
  }

  datatype Rect = Rect(x: nat, y: nat, width: nat, height: nat)

  /** The region of the camera image that the depth thread reads for an eye. */
  function FrameROI(c: Camera, eye: Eye): Rect {
    match c.layout
    case StereoHorizontal =>
      if eye.Left? then Rect(0, 0, c.FrameWidth(), c.FrameHeight())
      else Rect(c.FrameWidth(), 0, c.FrameWidth(), c.FrameHeight())
    case StereoVertical =>
      if eye.Left? then Rect(0, c.FrameHeight(), c.FrameWidth(), c.FrameHeight())
      else Rect(0, 0, c.FrameWidth(), c.FrameHeight())
    case Mono => Rect(0, 0, 0, 0)
  }

  /** In the stereo layouts the pixels of an eye's region are the pixels its distortion offsets are stored at. */
  lemma ROIMatchesFrame(c: Camera, eye: Eye, x: nat, y: nat)
    requires !c.layout.Mono?
    ensures var r := FrameROI(c, eye);
            r.x <= x < r.x + r.width && r.y <= y < r.y + r.height <==> c.InFrame(eye, x, y)
  {
  }
}
