/**
 Pixel arithmetic of apis/interactive-map-feeder-api/src/v1/services/RasterService.ts:18-139.
 Coordinates are reals; a coordinate that is not finite (a bounding box without extent) is None.
 Rounding is a parameter: an integer at a distance of at most one half.
 */
module Raster {
  import opened Wrappers
  import opened Arithmetic

  type byte = x: int | 0 <= x < 0x100

  const CHANNELS := 4

  datatype Coordinates = Coordinates(latitude: real, longitude: real)

  datatype BBox = BBox(topLeft: Coordinates, bottomRight: Coordinates)

  datatype Position = Position(x: Option<int>, y: Option<int>)

  type Rounding = real -> int

  ghost predicate Rounds(round: Rounding) {
    forall v: real :: -0.5 <= round(v) as real - v <= 0.5
  }

  // ---------- geometry ----------

  function PercentFromValue(total: real, value: real): real
    requires total != 0.0
  {
    value / total * 100.0
  }

  function ValueFromPercent(total: real, percent: real): real {
    total * percent / 100.0
  }

  /** Pixel on one axis of `size` pixels, for a point at `offset` of an `extent`. */
  function Axis(round: Rounding, size: int, extent: real, offset: real): Option<int> {
    if extent == 0.0 then None
    else Some(round(ValueFromPercent(size as real, PercentFromValue(extent, offset))))
  }

  function PositionOnImage(round: Rounding, c: Coordinates, box: BBox, height: nat, width: nat): Position {
    Position(
      Axis(round, width, box.bottomRight.longitude - box.topLeft.longitude, c.longitude - box.topLeft.longitude),
      Axis(round, height, box.topLeft.latitude - box.bottomRight.latitude, box.topLeft.latitude - c.latitude))
  }

  lemma PositiveProduct(a: real, b: real)
    requires a > 0.0 && b > 0.0
    ensures a * b > 0.0
  {
  }

  lemma Share(extent: real, offset: real)
    requires 0.0 <= offset <= extent && extent > 0.0
    ensures 0.0 <= offset / extent <= 1.0
  {
    var share := offset / extent;
    assert share * extent == offset;
    if share < 0.0 {
      PositiveProduct(-share, extent);
    }
    if share > 1.0 {
      PositiveProduct(share - 1.0, extent);
    }
  }

  lemma PartOf(size: real, share: real)
    requires size >= 0.0 && 0.0 <= share <= 1.0
    ensures 0.0 <= size * share <= size
  {
    assert size * (1.0 - share) >= 0.0;
  }

  lemma PercentOf(size: real, share: real)
    ensures size * (share * 100.0) / 100.0 == size * share
  {
    assert size * (share * 100.0) == size * share * 100.0;
  }

  lemma Scaled(size: int, extent: real, offset: real)
    requires size >= 0 && 0.0 <= offset <= extent && extent > 0.0
    ensures 0.0 <= ValueFromPercent(size as real, PercentFromValue(extent, offset)) <= size as real
  {
    Share(extent, offset);
    PercentOf(size as real, offset / extent);
    PartOf(size as real, offset / extent);
  }

  ghost predicate Within(c: Coordinates, box: BBox) {
    && box.topLeft.longitude < box.bottomRight.longitude
    && box.bottomRight.latitude < box.topLeft.latitude
    && box.topLeft.longitude <= c.longitude <= box.bottomRight.longitude
    && box.bottomRight.latitude <= c.latitude <= box.topLeft.latitude
  }

  /** A point of the box lands on the image or on the line just past its right or bottom edge. */
  lemma PointsOfTheBoxLandOnTheImage(round: Rounding, c: Coordinates, box: BBox, height: nat, width: nat)
    requires Rounds(round) && Within(c, box)
    ensures var p := PositionOnImage(round, c, box, height, width);
            p.x.Some? && p.y.Some? && 0 <= p.x.value <= width && 0 <= p.y.value <= height
  {
    Scaled(width, box.bottomRight.longitude - box.topLeft.longitude, c.longitude - box.topLeft.longitude);
    Scaled(height, box.topLeft.latitude - box.bottomRight.latitude, box.topLeft.latitude - c.latitude);
  }

  /** The pixel is to the size as the offset is to the extent, up to half a pixel: multiplied out. */
  ghost predicate HalfAPixelOff(pixel: int, size: int, extent: real, offset: real) {
    Close(pixel as real * extent, size as real * offset, if extent > 0.0 then extent else 0.0 - extent)
  }

  /** At most half of the tolerance apart. */
  ghost predicate Close(a: real, b: real, tolerance: real) {
    2.0 * (a - b) <= tolerance && 2.0 * (b - a) <= tolerance
  }

  /** On one axis the pixel is the exact proportion, rounded. */
  lemma AxisIsProportional(round: Rounding, size: int, extent: real, offset: real)
    requires Rounds(round) && extent != 0.0
    ensures Axis(round, size, extent, offset).Some?
    ensures HalfAPixelOff(Axis(round, size, extent, offset).value, size, extent, offset)
  {
    PercentOf(size as real, offset / extent);
    var exact, x := size as real * (offset / extent), Axis(round, size, extent, offset).value as real;
    Proportion(size as real, offset, extent);
    if extent > 0.0 {
      MultipliedOut(x, exact, extent, size as real * offset);
    } else {
      var length := 0.0 - extent;
      Mirrored(exact, extent);
      Mirrored(x, extent);
      MultipliedOut(x, exact, length, 0.0 - size as real * offset);
      CloseMirrored(x * extent, size as real * offset, x * length, length);
    }
  }

  lemma Proportion(size: real, offset: real, extent: real)
    requires extent != 0.0
    ensures size * (offset / extent) * extent == size * offset
  {
    var share := offset / extent;
    assert share * extent == offset;
    assert size * share * extent == size * (share * extent);
  }

  lemma Mirrored(a: real, b: real)
    ensures a * (0.0 - b) == 0.0 - a * b
  {
  }

  lemma CloseMirrored(a: real, b: real, a': real, tolerance: real)
    requires a' == 0.0 - a && Close(a', 0.0 - b, tolerance)
    ensures Close(a, b, tolerance)
  {
  }

  lemma MultipliedOut(x: real, exact: real, extent: real, target: real)
    requires -0.5 <= x - exact <= 0.5 && extent > 0.0 && exact * extent == target
    ensures Close(x * extent, target, extent)
  {
    ScaledOrder(x - exact, 0.5, extent);
    ScaledOrder(exact - x, 0.5, extent);
    Difference(x, exact, extent);
    Difference(exact, x, extent);
  }

  lemma Difference(a: real, b: real, c: real)
    ensures (a - b) * c == a * c - b * c
  {
  }

  lemma QuotientOrder(a: real, b: real, c: real)
    requires a <= b && c > 0.0
    ensures a / c <= b / c
  {
    var x, y := a / c, b / c;
    assert x * c == a && y * c == b && (x - y) * c == a - b;
    if x > y {
      PositiveProduct(x - y, c);
    }
  }

  lemma ScaledOrder(a: real, b: real, c: real)
    requires a <= b && c >= 0.0
    ensures a * c <= b * c
  {
  }

  /**
   Positions are proportional on both axes: x from the left edge eastwards, y from the top edge southwards, within half
   a pixel; for any point and any box with an extent.
   */
  lemma PositionsAreProportional(round: Rounding, c: Coordinates, box: BBox, height: nat, width: nat)
    requires Rounds(round)
    requires box.bottomRight.longitude != box.topLeft.longitude && box.topLeft.latitude != box.bottomRight.latitude
    ensures var p := PositionOnImage(round, c, box, height, width);
            var left, right, top, bottom := box.topLeft.longitude, box.bottomRight.longitude, box.topLeft.latitude, box.bottomRight.latitude;
            && p.x.Some? && p.y.Some?
            && HalfAPixelOff(p.x.value, width, right - left, c.longitude - left)
            && HalfAPixelOff(p.y.value, height, top - bottom, top - c.latitude)
  {
    AxisIsProportional(round, width, box.bottomRight.longitude - box.topLeft.longitude, c.longitude - box.topLeft.longitude);
    AxisIsProportional(round, height, box.topLeft.latitude - box.bottomRight.latitude, box.topLeft.latitude - c.latitude);
  }

  /** The corners of the box are the corners of the image. */
  lemma CornersMapToCorners(round: Rounding, box: BBox, height: nat, width: nat)
    requires Rounds(round)
    requires box.bottomRight.longitude != box.topLeft.longitude && box.topLeft.latitude != box.bottomRight.latitude
    ensures PositionOnImage(round, box.topLeft, box, height, width) == Position(Some(0), Some(0))
    ensures PositionOnImage(round, box.bottomRight, box, height, width) == Position(Some(width), Some(height))
  {
    AxisCorners(round, width, box.bottomRight.longitude - box.topLeft.longitude);
    AxisCorners(round, height, box.topLeft.latitude - box.bottomRight.latitude);
  }

  lemma AxisCorners(round: Rounding, size: int, extent: real)
    requires Rounds(round) && extent != 0.0
    ensures Axis(round, size, extent, 0.0) == Some(0)
    ensures Axis(round, size, extent, extent) == Some(size)
  {
    assert 0.0 / extent == 0.0 && extent / extent == 1.0;
    PercentOf(size as real, 0.0 / extent);
    PercentOf(size as real, extent / extent);
    assert -0.5 <= round(0.0) as real <= 0.5;
    assert -0.5 <= round(size as real) as real - size as real <= 0.5;
  }

  /** Further east is never further left and further south never further up, but for what rounding makes of a tie. */
  lemma PositionsKeepOrder(round: Rounding, a: Coordinates, b: Coordinates, box: BBox, height: nat, width: nat)
    requires Rounds(round)
    requires box.topLeft.longitude < box.bottomRight.longitude && box.bottomRight.latitude < box.topLeft.latitude
    requires a.longitude <= b.longitude && a.latitude >= b.latitude
    ensures var p, q := PositionOnImage(round, a, box, height, width), PositionOnImage(round, b, box, height, width);
            && p.x.Some? && p.y.Some? && q.x.Some? && q.y.Some?
            && p.x.value <= q.x.value + 1 && p.y.value <= q.y.value + 1
            && ((forall u: real, v: real :: u <= v ==> round(u) <= round(v)) ==> p.x.value <= q.x.value && p.y.value <= q.y.value)
  {
    AxisKeepsOrder(round, width, box.bottomRight.longitude - box.topLeft.longitude,
                   a.longitude - box.topLeft.longitude, b.longitude - box.topLeft.longitude);
    AxisKeepsOrder(round, height, box.topLeft.latitude - box.bottomRight.latitude,
                   box.topLeft.latitude - a.latitude, box.topLeft.latitude - b.latitude);
  }

  lemma AxisKeepsOrder(round: Rounding, size: nat, extent: real, a: real, b: real)
    requires Rounds(round) && extent > 0.0 && a <= b
    ensures Axis(round, size, extent, a).Some? && Axis(round, size, extent, b).Some?
    ensures Axis(round, size, extent, a).value <= Axis(round, size, extent, b).value + 1
    ensures (forall u: real, v: real :: u <= v ==> round(u) <= round(v)) ==>
              Axis(round, size, extent, a).value <= Axis(round, size, extent, b).value
  {
    var u, v := ValueFromPercent(size as real, PercentFromValue(extent, a)), ValueFromPercent(size as real, PercentFromValue(extent, b));
    PercentOf(size as real, a / extent);
    PercentOf(size as real, b / extent);
    QuotientOrder(a, b, extent);
    ScaledOrder(a / extent, b / extent, size as real);
    assert u <= v;
    assert -0.5 <= round(u) as real - u <= 0.5 && -0.5 <= round(v) as real - v <= 0.5;
  }

  /** Distance from the centre of a city's dot to its edge: a quarter per cent of the shorter side, halved. */
  function CityPixelOffset(round: Rounding, height: nat, width: nat): (r: int)
    requires Rounds(round)
    ensures r >= 0
    // the dot is 2r or 2r + 1 pixels wide, whichever is a four-hundredth of the shorter side, rounded
    ensures var shorter := if height <= width then height else width;
            -200 <= shorter - 400 * (2 * r) <= 200 || -200 <= shorter - 400 * (2 * r + 1) <= 200
  {
    var dotWidth := round(ValueFromPercent(Min(height, width) as real, 0.25));
    if dotWidth % 2 == 0 then dotWidth / 2 else (dotWidth - 1) / 2
  }

  // ---------- pixels of a flat buffer ----------

  const RED: seq<byte> := [255, 0, 0, 255]
  const BLACK: seq<byte> := [0, 0, 0, 0]

  predicate OnImage(w: nat, h: nat, x: int, y: int) {
    0 <= x < w && 0 <= y < h
  }

  function Index(w: nat, x: int, y: int): int {
    (y * w + x) * CHANNELS
  }

  /** Every pixel has its own four bytes inside the buffer. */
  lemma PixelBytes(w: nat, h: nat, x: int, y: int)
    requires OnImage(w, h, x, y)
    ensures 0 <= Index(w, x, y) <= w * h * CHANNELS - CHANNELS
  {
    ProductMonotone(y, h - 1, w);
    ProductMonotone(0, y, w);
  }

  lemma PixelsDoNotOverlap(w: nat, h: nat, x: int, y: int, x': int, y': int)
    requires OnImage(w, h, x, y) && OnImage(w, h, x', y') && (x, y) != (x', y')
    ensures Index(w, x, y) + CHANNELS <= Index(w, x', y') || Index(w, x', y') + CHANNELS <= Index(w, x, y)
  {
    if y < y' {
      ProductMonotone(y + 1, y', w);
    } else if y' < y {
      ProductMonotone(y' + 1, y, w);
    }
  }

  function Pixel(s: seq<byte>, w: nat, h: nat, x: int, y: int): (p: seq<byte>)
    requires |s| == w * h * CHANNELS && OnImage(w, h, x, y)
    ensures |p| == CHANNELS
  {
    PixelBytes(w, h, x, y);
    s[Index(w, x, y)..Index(w, x, y) + CHANNELS]
  }

  /** And every byte belongs to one: the pixels are the whole buffer. */
  lemma EveryByteIsOfAPixel(w: nat, h: nat, k: nat)
    requires k < w * h * CHANNELS
    ensures w > 0 && OnImage(w, h, (k / CHANNELS) % w, (k / CHANNELS) / w)
    ensures Index(w, (k / CHANNELS) % w, (k / CHANNELS) / w) <= k < Index(w, (k / CHANNELS) % w, (k / CHANNELS) / w) + CHANNELS
  {
    ProductMonotone(0, h, w);
    var p := k / CHANNELS;
    assert p < w * h;
    var x, y := p % w, p / w;
    assert p == y * w + x;
    if y >= h {
      ProductMonotone(h, y, w);
    }
  }

  /** Writes one red pixel, touching no other. */
  method PaintPixel(buffer: array<byte>, w: nat, h: nat, x: int, y: int)
    requires buffer.Length == w * h * CHANNELS && OnImage(w, h, x, y)
    modifies buffer
    ensures forall x', y' :: OnImage(w, h, x', y') ==>
              Pixel(buffer[..], w, h, x', y') == if x' == x && y' == y then RED else old(Pixel(buffer[..], w, h, x', y'))
  {
    PixelBytes(w, h, x, y);
    var index := (y * w + x) * CHANNELS;
    buffer[index] := 255;
    buffer[index + 1] := 0;
    buffer[index + 2] := 0;
    buffer[index + 3] := 255;
    forall x', y' | OnImage(w, h, x', y')
      ensures Pixel(buffer[..], w, h, x', y') == if x' == x && y' == y then RED else old(Pixel(buffer[..], w, h, x', y'))
    {
      PixelBytes(w, h, x', y');
      if (x', y') != (x, y) {
        PixelsDoNotOverlap(w, h, x, y, x', y');
      }
    }
  }

  predicate InDot(px: int, py: int, offset: int, x: int, y: int) {
    px - offset <= x <= px + offset && py - offset <= y <= py + offset
  }

  /** The dot around one position, clipped to the image. */
  method PaintDot(buffer: array<byte>, w: nat, h: nat, px: int, py: int, offset: int)
    requires buffer.Length == w * h * CHANNELS && offset >= 0
    modifies buffer
    ensures forall x, y :: OnImage(w, h, x, y) ==>
              Pixel(buffer[..], w, h, x, y) == if InDot(px, py, offset, x, y) then RED else old(Pixel(buffer[..], w, h, x, y))
  {
    for dx := -offset to offset + 1
      invariant forall x, y :: OnImage(w, h, x, y) ==>
                  Pixel(buffer[..], w, h, x, y) == if InDot(px, py, offset, x, y) && x < px + dx then RED
                                                   else old(Pixel(buffer[..], w, h, x, y))
    {
      for dy := -offset to offset + 1
        invariant forall x, y :: OnImage(w, h, x, y) ==>
                    Pixel(buffer[..], w, h, x, y) ==
                      if InDot(px, py, offset, x, y) && (x < px + dx || (x == px + dx && y < py + dy)) then RED
                      else old(Pixel(buffer[..], w, h, x, y))
      {
        var x, y := px + dx, py + dy;
        if x >= 0 && x < w && y >= 0 && y < h {
          PaintPixel(buffer, w, h, x, y);
        }
      }
    }
  }

  ghost predicate Marked(positions: seq<Position>, offset: int, x: int, y: int) {
    exists c :: 0 <= c < |positions| && positions[c].x.Some? && positions[c].y.Some?
             && InDot(positions[c].x.value, positions[c].y.value, offset, x, y)
  }

  function Positions(round: Rounding, cities: seq<Coordinates>, box: BBox, height: nat, width: nat): seq<Position> {
    seq(|cities|, i requires 0 <= i < |cities| => PositionOnImage(round, cities[i], box, height, width))
  }

  /** Red pixels are exactly those in the dot of some position, all others are black. */
  ghost predicate Shows(s: seq<byte>, w: nat, h: nat, positions: seq<Position>, offset: int) {
    && |s| == w * h * CHANNELS
    && forall x, y :: OnImage(w, h, x, y) ==> Pixel(s, w, h, x, y) == if Marked(positions, offset, x, y) then RED else BLACK
  }

  method CreateCitiesImage(round: Rounding, height: nat, width: nat, box: BBox, cities: seq<Coordinates>) returns (buffer: array<byte>)
    requires Rounds(round)
    ensures fresh(buffer)
    ensures Shows(buffer[..], width, height, Positions(round, cities, box, height, width), CityPixelOffset(round, height, width))
  {
    buffer := new byte[width * height * CHANNELS](_ => 0);
    var offset := CityPixelOffset(round, height, width);
    ghost var all := Positions(round, cities, box, height, width);
    forall x, y | OnImage(width, height, x, y) ensures Pixel(buffer[..], width, height, x, y) == BLACK {
      PixelBytes(width, height, x, y);
    }
    for i := 0 to |cities|
      invariant Shows(buffer[..], width, height, all[..i], offset)
    {
      var position := PositionOnImage(round, cities[i], box, height, width);
      ghost var before := buffer[..];
      if position.x.Some? && position.y.Some? {
        PaintDot(buffer, width, height, position.x.value, position.y.value, offset);
      }
      ShowsOneMore(before, buffer[..], width, height, all, i, offset);
    }
    assert all[..|cities|] == all;
  }

  lemma ShowsOneMore(s: seq<byte>, s': seq<byte>, w: nat, h: nat, all: seq<Position>, i: nat, offset: int)
    requires i < |all| && |s'| == w * h * CHANNELS && Shows(s, w, h, all[..i], offset)
    requires forall x, y :: OnImage(w, h, x, y) ==>
               Pixel(s', w, h, x, y) ==
                 if all[i].x.Some? && all[i].y.Some? && InDot(all[i].x.value, all[i].y.value, offset, x, y) then RED
                 else Pixel(s, w, h, x, y)
    ensures Shows(s', w, h, all[..i + 1], offset)
  {
    forall x, y | OnImage(w, h, x, y)
      ensures Pixel(s', w, h, x, y) == if Marked(all[..i + 1], offset, x, y) then RED else BLACK
    {
      OneMoreCity(all, i, offset, x, y);
    }
  }

  lemma OneMoreCity(all: seq<Position>, i: nat, offset: int, x: int, y: int)
    requires i < |all|
    ensures Marked(all[..i + 1], offset, x, y) <==>
              || Marked(all[..i], offset, x, y)
              || (all[i].x.Some? && all[i].y.Some? && InDot(all[i].x.value, all[i].y.value, offset, x, y))
  {
    assert all[..i + 1] == all[..i] + [all[i]];
    if Marked(all[..i], offset, x, y) {
      var c :| 0 <= c < i && all[..i][c].x.Some? && all[..i][c].y.Some?
               && InDot(all[..i][c].x.value, all[..i][c].y.value, offset, x, y);
      assert all[..i + 1][c] == all[..i][c];
    }
    if all[i].x.Some? && all[i].y.Some? && InDot(all[i].x.value, all[i].y.value, offset, x, y) {
      assert all[..i + 1][i] == all[i];
    }
  }

  /**
   So every byte of the image is accounted for: byte k is 255 exactly in the red and alpha bytes of a pixel within the
   offset, on both axes, of some position, else 0.
   */
  lemma EveryByteOfTheImage(s: seq<byte>, w: nat, h: nat, positions: seq<Position>, offset: int, k: nat)
    requires Shows(s, w, h, positions, offset) && k < |s|
    ensures w > 0
    ensures s[k] == if Marked(positions, offset, (k / CHANNELS) % w, (k / CHANNELS) / w) && (k % CHANNELS == 0 || k % CHANNELS == 3)
                    then 255 else 0
    ensures s[k] == 255 <==>
              && (k % 4 == 0 || k % 4 == 3)
              && exists c :: 0 <= c < |positions| && positions[c].x.Some? && positions[c].y.Some?
                          && -offset <= (k / 4) % w - positions[c].x.value <= offset
                          && -offset <= (k / 4) / w - positions[c].y.value <= offset
  {
    EveryByteIsOfAPixel(w, h, k);
    var x, y := (k / CHANNELS) % w, (k / CHANNELS) / w;
    PixelBytes(w, h, x, y);
    assert s[k] == Pixel(s, w, h, x, y)[k - Index(w, x, y)];
    MarkedMeans(positions, offset, x, y);
  }

  lemma MarkedMeans(positions: seq<Position>, offset: int, x: int, y: int)
    ensures Marked(positions, offset, x, y) <==>
              exists c :: 0 <= c < |positions| && positions[c].x.Some? && positions[c].y.Some?
                       && -offset <= x - positions[c].x.value <= offset && -offset <= y - positions[c].y.value <= offset
  {
  }

  // ---------- sampling ----------

  datatype RGBA = RGBA(r: byte, g: byte, b: byte, a: byte)

  datatype SampleError = UnsupportedChannels

  /** The clipped window on one axis, as a first and a last pixel. */
  function Window(size: nat, centre: int, radius: nat): (int, int) {
    (Max(0, centre - radius), Min(size - 1, centre + radius))
  }

  function Length(first: int, last: int): nat {
    if first <= last then last - first + 1 else 0
  }

  /** Width and height of the window; zero if it is empty on either axis. */
  function Columns(size: nat, centre: int, radius: nat): nat {
    Length(Window(size, centre, radius).0, Window(size, centre, radius).1)
  }

  /** The four bytes of a pixel; black where there are none. */
  function RGBAAt(data: seq<byte>, w: nat, x: int, y: int): RGBA {
    var at := Index(w, x, y);
    if 0 <= at <= |data| - CHANNELS then RGBA(data[at], data[at + 1], data[at + 2], data[at + 3]) else RGBA(0, 0, 0, 0)
  }

  /** `n` pixels of row y, from x on. */
  function Row(data: seq<byte>, w: nat, x: int, n: nat, y: int): (r: seq<RGBA>)
    ensures |r| == n
  {
    if n == 0 then [] else Row(data, w, x, n - 1, y) + [RGBAAt(data, w, x + n - 1, y)]
  }

  /** `rows` rows of `n` pixels, one after the other. */
  function Rows(data: seq<byte>, w: nat, x: int, n: nat, y: int, rows: nat): seq<RGBA> {
    if rows == 0 then [] else Rows(data, w, x, n, y, rows - 1) + Row(data, w, x, n, y + rows - 1)
  }

  lemma {:induction false} RowAt(data: seq<byte>, w: nat, x: int, n: nat, y: int, i: nat)
    requires i < n
    ensures Row(data, w, x, n, y)[i] == RGBAAt(data, w, x + i, y)
  {
    if i < n - 1 {
      RowAt(data, w, x, n - 1, y, i);
    }
  }

  /** The first j rows, with the next one, are a prefix. */
  lemma {:induction false} RowsPrefix(data: seq<byte>, w: nat, x: int, n: nat, y: int, rows: nat, j: nat)
    requires j < rows
    ensures Rows(data, w, x, n, y, j) + Row(data, w, x, n, y + j) <= Rows(data, w, x, n, y, rows)
  {
    if j < rows - 1 {
      RowsPrefix(data, w, x, n, y, rows - 1, j);
    }
  }

  lemma ElementOfPart(all: seq<RGBA>, before: seq<RGBA>, part: seq<RGBA>, i: nat)
    requires before + part <= all && i < |part|
    ensures |before| + i < |all| && all[|before| + i] == part[i]
  {
    assert (before + part)[|before| + i] == part[i];
  }

  /** Row j starts where the first j rows end. */
  lemma RowOfRows(data: seq<byte>, w: nat, x: int, n: nat, y: int, rows: nat, i: nat, j: nat)
    requires i < n && j < rows
    ensures var pixels, before := Rows(data, w, x, n, y, rows), Rows(data, w, x, n, y, j);
            |before| + i < |pixels| && pixels[|before| + i] == Row(data, w, x, n, y + j)[i]
  {
    RowsPrefix(data, w, x, n, y, rows, j);
    ElementOfPart(Rows(data, w, x, n, y, rows), Rows(data, w, x, n, y, j), Row(data, w, x, n, y + j), i);
  }

  /** Row-major order: every pixel of the window is listed exactly once, row j and column i at j * n + i. */
  lemma RowMajorOrder(data: seq<byte>, w: nat, x: int, n: nat, y: int, rows: nat, i: nat, j: nat)
    requires i < n && j < rows
    ensures var pixels := Rows(data, w, x, n, y, rows);
            && |pixels| == rows * n
            && 0 <= j * n + i < |pixels|
            && pixels[j * n + i] == RGBAAt(data, w, x + i, y + j)
  {
    RowMajorIndex(data, w, x, n, y, rows, i, j);
    RowAt(data, w, x, n, y + j, i);
  }

  lemma RowMajorIndex(data: seq<byte>, w: nat, x: int, n: nat, y: int, rows: nat, i: nat, j: nat)
    requires i < n && j < rows
    ensures var pixels := Rows(data, w, x, n, y, rows);
            && |pixels| == rows * n
            && 0 <= j * n + i < |pixels|
            && pixels[j * n + i] == Row(data, w, x, n, y + j)[i]
  {
    RowsLength(data, w, x, n, y, rows);
    RowsLength(data, w, x, n, y, j);
    RowOfRows(data, w, x, n, y, rows, i, j);
  }

  lemma {:induction false} RowsLength(data: seq<byte>, w: nat, x: int, n: nat, y: int, rows: nat)
    ensures |Rows(data, w, x, n, y, rows)| == rows * n
  {
    if rows > 0 {
      RowsLength(data, w, x, n, y, rows - 1);
      OneMore(rows - 1, n);
    }
  }

  /** The pixels of the clipped window. */
  function WindowPixels(data: seq<byte>, w: nat, h: nat, px: int, py: int, radius: nat): seq<RGBA> {
    Rows(data, w, Window(w, px, radius).0, Columns(w, px, radius), Window(h, py, radius).0, Columns(h, py, radius))
  }

  method ReadPixel(data: seq<byte>, w: nat, h: nat, x: int, y: int) returns (pixel: RGBA)
    requires |data| == w * h * CHANNELS && OnImage(w, h, x, y)
    ensures pixel == RGBAAt(data, w, x, y)
  {
    PixelBytes(w, h, x, y);
    var srcIndex := (y * w + x) * CHANNELS;
    pixel := RGBA(data[srcIndex], data[srcIndex + 1], data[srcIndex + 2], data[srcIndex + 3]);
  }

  /** The inner loop: one row from startX to endX. */
  method ReadRow(data: seq<byte>, w: nat, h: nat, channels: nat, startX: int, endX: int, j: int)
      returns (r: Result<seq<RGBA>, SampleError>)
    requires (channels == CHANNELS ==> |data| == w * h * CHANNELS) && 0 <= startX && endX < w && 0 <= j < h
    ensures r.Failure? <==> channels != CHANNELS && startX <= endX
    ensures r.Success? ==> r.value == if channels == CHANNELS then Row(data, w, startX, Length(startX, endX), j) else []
  {
    var pixels: seq<RGBA> := [];
    var i := startX;
    while i <= endX
      invariant startX <= i <= startX + Length(startX, endX)
      invariant channels != CHANNELS ==> i == startX
      invariant pixels == if channels == CHANNELS then Row(data, w, startX, i - startX, j) else []
    {
      if channels != CHANNELS {
        return Failure(UnsupportedChannels);
      }
      var pixel := ReadPixel(data, w, h, i, j);
      pixels := pixels + [pixel];
      i := i + 1;
    }
    return Success(pixels);
  }

  /** The outer loop: the rows from startY to endY. */
  method ReadRows(data: seq<byte>, w: nat, h: nat, channels: nat, startX: int, endX: int, startY: int, endY: int)
      returns (r: Result<seq<RGBA>, SampleError>)
    requires channels == CHANNELS ==> |data| == w * h * CHANNELS
    requires 0 <= startX && endX < w && 0 <= startY && endY < h
    ensures r.Failure? <==> channels != CHANNELS && startX <= endX && startY <= endY
    ensures r.Success? && channels != CHANNELS ==> r.value == []
    ensures channels == CHANNELS ==> r == Success(Rows(data, w, startX, Length(startX, endX), startY, Length(startY, endY)))
  {
    var pixels: seq<RGBA> := [];
    var j := startY;
    while j <= endY
      invariant startY <= j <= startY + Length(startY, endY)
      invariant channels == CHANNELS ==> pixels == Rows(data, w, startX, Length(startX, endX), startY, j - startY)
      invariant channels != CHANNELS ==> pixels == [] && (j > startY ==> startX > endX)
    {
      var row := ReadRow(data, w, h, channels, startX, endX, j);
      if row.Failure? {
        return Failure(row.error);
      }
      pixels := pixels + row.value;
      j := j + 1;
    }
    return Success(pixels);
  }

  /** Reads the clipped window; an image of other than 4 channels is refused if there is anything to read. */
  method GetPixelsWithRadius(data: seq<byte>, w: nat, h: nat, channels: nat, px: int, py: int, radius: nat)
      returns (r: Result<seq<RGBA>, SampleError>)
    requires channels == CHANNELS ==> |data| == w * h * CHANNELS
    ensures r.Failure? <==> channels != CHANNELS && Columns(w, px, radius) > 0 && Columns(h, py, radius) > 0
    ensures r.Success? ==> r.value == if channels == CHANNELS then WindowPixels(data, w, h, px, py, radius) else []
  {
    var startX, endX := Max(0, px - radius), Min(w - 1, px + radius);
    var startY, endY := Max(0, py - radius), Min(h - 1, py + radius);
    r := ReadRows(data, w, h, channels, startX, endX, startY, endY);
  }

  /** On an axis where the position is on the image or just past its edge, the window is empty exactly past the edge with radius 0. */
  lemma WindowIsNonEmpty(size: nat, centre: int, radius: nat)
    requires size >= 1 && 0 <= centre <= size
    ensures Columns(size, centre, radius) > 0 <==> centre < size || radius >= 1
  {
  }

  /** The window on one axis is what lies on it within the radius. */
  lemma WindowIsWithinTheRadius(size: nat, centre: int, radius: nat, x: int)
    ensures var (first, last) := Window(size, centre, radius);
            && (first <= x <= last <==> 0 <= x < size && centre - radius <= x <= centre + radius)
            && (first <= x <= last ==> Columns(size, centre, radius) == last - first + 1 && 0 <= x - first < Columns(size, centre, radius))
  {
  }

  /** Every pixel within the radius of the centre, on both axes, is sampled with its own four bytes. */
  lemma EveryNeighbourIsSampled(data: seq<byte>, w: nat, h: nat, px: int, py: int, radius: nat, x: int, y: int)
    requires |data| == w * h * 4 && 0 <= x < w && 0 <= y < h
    requires px - radius <= x <= px + radius && py - radius <= y <= py + radius
    ensures 0 <= (y * w + x) * 4 <= |data| - 4
    ensures var at, pixels := (y * w + x) * 4, WindowPixels(data, w, h, px, py, radius);
            var n, row, column := Columns(w, px, radius), y - Window(h, py, radius).0, x - Window(w, px, radius).0;
            && 0 <= row * n + column < |pixels| && 0 <= column < n && 0 <= row < Columns(h, py, radius)
            && pixels[row * n + column] == RGBA(data[at], data[at + 1], data[at + 2], data[at + 3])
  {
    PixelsOnTheImage(data, w, h, x, y);
    WindowIsWithinTheRadius(w, px, radius, x);
    WindowIsWithinTheRadius(h, py, radius, y);
    var firstX, firstY := Window(w, px, radius).0, Window(h, py, radius).0;
    RowMajorOrder(data, w, firstX, Columns(w, px, radius), firstY, Columns(h, py, radius), x - firstX, y - firstY);
    assert firstX + (x - firstX) == x && firstY + (y - firstY) == y;
  }

  lemma PixelsOnTheImage(data: seq<byte>, w: nat, h: nat, x: int, y: int)
    requires |data| == w * h * 4 && OnImage(w, h, x, y)
    ensures var at := (y * w + x) * 4;
            && 0 <= at <= |data| - 4
            && RGBAAt(data, w, x, y) == RGBA(data[at], data[at + 1], data[at + 2], data[at + 3])
  {
    PixelBytes(w, h, x, y);
  }

  function Sum(s: seq<byte>): int {
    if s == [] then 0 else Sum(s[..|s| - 1]) + s[|s| - 1] as int
  }

  lemma {:induction false} SumBounds(s: seq<byte>)
    ensures 0 <= Sum(s) <= 255 * |s|
  {
    if s != [] {
      SumBounds(s[..|s| - 1]);
    }
  }

  /** The rounded mean of a non-empty list of channel values. */
  function AverageChannel(round: Rounding, s: seq<byte>): int
    requires s != []
  {
    round(Sum(s) as real / |s| as real)
  }

  lemma AverageIsAChannelValue(round: Rounding, s: seq<byte>)
    requires Rounds(round) && s != []
    ensures 0 <= AverageChannel(round, s) <= 255
  {
    SumBounds(s);
    MeanBounds(Sum(s), |s|);
  }

  /** The sum is that of its parts, down to single bytes. */
  lemma {:induction false} SumOfParts(a: seq<byte>, b: seq<byte>)
    ensures Sum(a + b) == Sum(a) + Sum(b)
    ensures forall x: byte :: Sum([x]) == x
    decreases |b|
  {
    if b == [] {
      assert a + b == a;
    } else {
      SumOfParts(a, b[..|b| - 1]);
      assert (a + b)[..|a + b| - 1] == a + b[..|b| - 1];
    }
    forall x: byte ensures Sum([x]) == x {
      assert [x][..0] == [];
    }
  }

  /** The average is within one half of the mean: multiplied out. */
  lemma AverageIsTheMean(round: Rounding, s: seq<byte>)
    requires Rounds(round) && s != []
    ensures 2 * (AverageChannel(round, s) * |s| - Sum(s)) <= |s| && 2 * (Sum(s) - AverageChannel(round, s) * |s|) <= |s|
  {
    RoundedQuotient(round, Sum(s), |s|);
  }

  lemma RoundedQuotient(round: Rounding, sum: int, n: nat)
    requires Rounds(round) && n > 0
    ensures var average := round(sum as real / n as real);
            2 * (average * n - sum) <= n && 2 * (sum - average * n) <= n
  {
    var mean, average := sum as real / n as real, round(sum as real / n as real);
    assert mean * n as real == sum as real;
    RoundedProduct(average, mean, sum, n);
  }

  lemma RoundedProduct(average: int, mean: real, sum: int, n: nat)
    requires n > 0 && -0.5 <= average as real - mean <= 0.5 && mean * n as real == sum as real
    ensures 2 * (average * n - sum) <= n && 2 * (sum - average * n) <= n
  {
    MultipliedOut(average as real, mean, n as real, sum as real);
    CastProduct(average, n);
    CloseIntegers(average * n, sum, n, average as real * n as real);
  }

  lemma CloseIntegers(product: int, sum: int, n: int, exact: real)
    requires exact == product as real && Close(exact, sum as real, n as real)
    ensures 2 * (product - sum) <= n && 2 * (sum - product) <= n
  {
  }

  lemma CastProduct(a: int, b: int)
    ensures (a * b) as real == a as real * b as real
  {
  }

  lemma {:induction false} SumOfEquals(s: seq<byte>, v: byte)
    requires forall k :: 0 <= k < |s| ==> s[k] == v
    ensures Sum(s) == |s| * v
  {
    if s != [] {
      SumOfEquals(s[..|s| - 1], v);
      OneMore(|s| - 1, v);
    }
  }

  lemma AverageOfEquals(round: Rounding, s: seq<byte>, v: byte)
    requires Rounds(round) && s != [] && forall k :: 0 <= k < |s| ==> s[k] == v
    ensures AverageChannel(round, s) == v
  {
    SumOfEquals(s, v);
    assert (|s| * v) as real / |s| as real == v as real;
    assert -0.5 <= round(v as real) as real - v as real <= 0.5;
  }

  /** A uniform neighbourhood has its own colour. */
  lemma MeanOfOneColour(round: Rounding, pixels: seq<RGBA>, q: RGBA)
    requires Rounds(round) && pixels != [] && forall k :: 0 <= k < |pixels| ==> pixels[k] == q
    ensures MeanColour(round, pixels) == Colour(q.r, q.g, q.b, q.a)
  {
    AverageOfEquals(round, Channel(pixels, (p: RGBA) => p.r), q.r);
    AverageOfEquals(round, Channel(pixels, (p: RGBA) => p.g), q.g);
    AverageOfEquals(round, Channel(pixels, (p: RGBA) => p.b), q.b);
    AverageOfEquals(round, Channel(pixels, (p: RGBA) => p.a), q.a);
  }

  lemma MeanBounds(sum: int, n: nat)
    requires n > 0 && 0 <= sum <= 255 * n
    ensures 0.0 <= sum as real / n as real <= 255.0
  {
    var d, mean := n as real, sum as real / n as real;
    assert mean * d == sum as real;
    assert (255.0 - mean) * d == 255.0 * d - mean * d;
    if mean < 0.0 {
      PositiveProduct(-mean, d);
    }
    if mean > 255.0 {
      PositiveProduct(mean - 255.0, d);
    }
  }

  /** For a point of the box and a radius of at least one pixel there is something to average, and the averages are channel values. */
  lemma ColourOfAPointOfTheBox(round: Rounding, c: Coordinates, box: BBox, data: seq<byte>, w: nat, h: nat, radius: nat)
    requires Rounds(round) && Within(c, box) && radius >= 1 && w >= 1 && h >= 1 && |data| == w * h * CHANNELS
    ensures var p := PositionOnImage(round, c, box, h, w);
            && p.x.Some? && p.y.Some?
            && var pixels := WindowPixels(data, w, h, p.x.value, p.y.value, radius);
            && pixels != []
            && var mean := MeanColour(round, pixels);
               0 <= mean.r <= 255 && 0 <= mean.g <= 255 && 0 <= mean.b <= 255 && 0 <= mean.a <= 255
  {
    PointsOfTheBoxLandOnTheImage(round, c, box, h, w);
    var p := PositionOnImage(round, c, box, h, w);
    var x, y := p.x.value, p.y.value;
    WindowIsNonEmpty(w, x, radius);
    WindowIsNonEmpty(h, y, radius);
    RowsLength(data, w, Window(w, x, radius).0, Columns(w, x, radius), Window(h, y, radius).0, Columns(h, y, radius));
    ProductMonotone(1, Columns(h, y, radius), Columns(w, x, radius));
    var pixels := WindowPixels(data, w, h, x, y, radius);
    AverageIsAChannelValue(round, Channel(pixels, (q: RGBA) => q.r));
    AverageIsAChannelValue(round, Channel(pixels, (q: RGBA) => q.g));
    AverageIsAChannelValue(round, Channel(pixels, (q: RGBA) => q.b));
    AverageIsAChannelValue(round, Channel(pixels, (q: RGBA) => q.a));
  }

  function Channel(pixels: seq<RGBA>, of: RGBA -> byte): (s: seq<byte>)
    ensures |s| == |pixels|
  {
    seq(|pixels|, i requires 0 <= i < |pixels| => of(pixels[i]))
  }

  /** `calculatePixelFromKilometers`: the sides of the box in kilometres are given. */
  function RadiusInPixels(round: Rounding, kilometers: real, kmWide: real, kmHigh: real, height: nat, width: nat): int
    requires kmWide > 0.0 && kmHigh > 0.0
  {
    round(PixelsFor(kilometers, kmWide, kmHigh, height, width))
  }

  function PixelsFor(kilometers: real, kmWide: real, kmHigh: real, height: nat, width: nat): real
    requires kmWide > 0.0 && kmHigh > 0.0
  {
    kilometers * ((width as real / kmWide + height as real / kmHigh) / 2.0)
  }

  /** The distance times the mean of the two resolutions: multiplied out. */
  lemma RadiusIsTheMeanResolution(kilometers: real, kmWide: real, kmHigh: real, height: nat, width: nat)
    requires kmWide > 0.0 && kmHigh > 0.0
    ensures 2.0 * PixelsFor(kilometers, kmWide, kmHigh, height, width) * (kmWide * kmHigh)
         == kilometers * (width as real * kmHigh + height as real * kmWide)
  {
    var a, b := width as real / kmWide, height as real / kmHigh;
    assert a * kmWide == width as real && b * kmHigh == height as real;
    assert (a + b) * (kmWide * kmHigh) == (a * kmWide) * kmHigh + (b * kmHigh) * kmWide;
    assert 2.0 * (kilometers * ((a + b) / 2.0)) == kilometers * (a + b);
  }

  lemma Quotient(n: nat, d: real)
    requires d > 0.0
    ensures n as real / d >= 0.0
  {
    var q := n as real / d;
    assert q * d == n as real;
    if q < 0.0 {
      PositiveProduct(-q, d);
    }
  }

  /** The radius is never negative, and vanishes only for a distance of half a pixel or less. */
  lemma RadiusOfADistance(round: Rounding, kilometers: real, kmWide: real, kmHigh: real, height: nat, width: nat)
    requires Rounds(round) && kmWide > 0.0 && kmHigh > 0.0 && kilometers >= 0.0
    ensures var r, exact := RadiusInPixels(round, kilometers, kmWide, kmHigh, height, width),
                            PixelsFor(kilometers, kmWide, kmHigh, height, width);
            r >= 0 && (exact > 0.5 ==> r >= 1) && (exact < 0.5 ==> r == 0)
  {
    Quotient(width, kmWide);
    Quotient(height, kmHigh);
    var resolution := (width as real / kmWide + height as real / kmHigh) / 2.0;
    assert kilometers * resolution >= 0.0;
  }

  /**
   `NothingThere` is the mean of no pixels at all. `OffTheMap` is the outcome for a box without extent, where the
   position and the radius are not finite and the outcome is up to the library's arithmetic.
   */
  datatype Sample = Colour(r: int, g: int, b: int, a: int) | NothingThere | Refused | OffTheMap

  predicate HasExtent(box: BBox) {
    box.bottomRight.longitude != box.topLeft.longitude && box.topLeft.latitude != box.bottomRight.latitude
  }

  /** `getRGBAOnCoordinates`: the mean colour around a point. */
  method GetRGBAOnCoordinates(round: Rounding, c: Coordinates, box: BBox, data: seq<byte>, w: nat, h: nat, channels: nat,
                              kilometers: real, kmWide: real, kmHigh: real)
      returns (s: Sample)
    requires Rounds(round) && kilometers >= 0.0
    requires HasExtent(box) ==> kmWide > 0.0 && kmHigh > 0.0
    requires channels == CHANNELS ==> |data| == w * h * CHANNELS
    ensures s.OffTheMap? <==> !HasExtent(box)
    ensures HasExtent(box) ==>
              var p := PositionOnImage(round, c, box, h, w);
              var radius := RadiusInPixels(round, kilometers, kmWide, kmHigh, h, w);
              && radius >= 0
              && (s.NothingThere? <==> Columns(w, p.x.value, radius) == 0 || Columns(h, p.y.value, radius) == 0)
              && (s.Refused? ==> channels != CHANNELS)
              && (s.Colour? ==> channels == CHANNELS
                                && var pixels := WindowPixels(data, w, h, p.x.value, p.y.value, radius);
                                   pixels != [] && s == MeanColour(round, pixels))
    // in the box, more than half a pixel around: always a colour
    ensures Within(c, box) && PixelsFor(kilometers, kmWide, kmHigh, h, w) > 0.5 && w >= 1 && h >= 1 && channels == CHANNELS ==>
              s.Colour? && 0 <= s.r <= 255 && 0 <= s.g <= 255 && 0 <= s.b <= 255 && 0 <= s.a <= 255
  {
    var position := PositionOnImage(round, c, box, h, w);
    if position.x.None? || position.y.None? {
      return OffTheMap;
    }
    RadiusOfADistance(round, kilometers, kmWide, kmHigh, h, w);
    var radius := RadiusInPixels(round, kilometers, kmWide, kmHigh, h, w);
    var x, y := position.x.value, position.y.value;
    var pixels := GetPixelsWithRadius(data, w, h, channels, x, y, radius);
    if pixels.Failure? {
      return Refused;
    }
    if channels == CHANNELS {
      WindowSize(data, w, h, x, y, radius);
    }
    if pixels.value == [] {
      s := NothingThere;
    } else {
      s := MeanColour(round, pixels.value);
    }
    if Within(c, box) && radius >= 1 && w >= 1 && h >= 1 && channels == CHANNELS {
      ColourOfAPointOfTheBox(round, c, box, data, w, h, radius);
    }
  }

  function MeanColour(round: Rounding, pixels: seq<RGBA>): (s: Sample)
    requires pixels != []
    ensures s.Colour?
  {
    Colour(AverageChannel(round, Channel(pixels, (q: RGBA) => q.r)),
           AverageChannel(round, Channel(pixels, (q: RGBA) => q.g)),
           AverageChannel(round, Channel(pixels, (q: RGBA) => q.b)),
           AverageChannel(round, Channel(pixels, (q: RGBA) => q.a)))
  }

  /** The window holds as many pixels as its sides say; none if it is empty on either axis. */
  lemma WindowSize(data: seq<byte>, w: nat, h: nat, px: int, py: int, radius: nat)
    requires |data| == w * h * CHANNELS
    ensures |WindowPixels(data, w, h, px, py, radius)| == Columns(h, py, radius) * Columns(w, px, radius)
    ensures WindowPixels(data, w, h, px, py, radius) == [] <==> Columns(w, px, radius) == 0 || Columns(h, py, radius) == 0
  {
    var n, rows := Columns(w, px, radius), Columns(h, py, radius);
    RowsLength(data, w, Window(w, px, radius).0, n, Window(h, py, radius).0, rows);
    if n > 0 && rows > 0 {
      ProductMonotone(1, rows, n);
    }
  }
}
