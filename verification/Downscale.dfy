/** The still's area downscale: each destination pixel averages a rectangle, and the rectangles tile the source. */
module Downscale {
  import opened Quotients

  // ----- Sizes

  /** A profile's target size for a screen: its width capped, its height following. */
  function TargetSize(maxWidth: int, width: int, height: int): (int, int) {
    if width <= 0 || height <= 0 then (0, 0)
    else if width <= maxWidth then (width, height)
    else
      var target := if maxWidth >= 0 then height * maxWidth / width else 0;
      (maxWidth, if target < 1 then 1 else target)
  }

  /** A still is never larger than its screen and never empty. */
  lemma TargetFits(maxWidth: int, width: int, height: int)
    requires 0 < maxWidth && 0 < width && 0 < height
    ensures var (w, h) := TargetSize(maxWidth, width, height); 0 < w <= width && w <= maxWidth && 0 < h <= height
  {
    if width > maxWidth {
      Product(maxWidth, width, height);
      Division(height * maxWidth, width, height);
    }
  }

  /** A wider screen is scaled to the width, its height in proportion and rounded down, but never to nothing. */
  lemma TargetKeepsShape(maxWidth: int, width: int, height: int)
    requires 0 < width && 0 < height
    ensures var (w, h) := TargetSize(maxWidth, width, height);
            && (width <= maxWidth ==> w == width && h == height)
            && (maxWidth < width ==>
                  && w == maxWidth && 1 <= h
                  && height * maxWidth < (h + 1) * width && (h > 1 ==> h * width <= height * maxWidth))
  {
    if maxWidth < width {
      if maxWidth >= 0 {
        var p := height * maxWidth;
        assert p / width * width <= p < (p / width + 1) * width;
      } else {
        assert height * maxWidth < 0;
      }
    }
  }

  // ----- The tiles along one axis

  /** Where tile i begins, of d tiles over s pixels. */
  function Edge(i: nat, s: nat, d: nat): nat
    requires d > 0
  {
    i * s / d
  }

  /** The tile that holds pixel c. */
  function Owner(c: nat, s: nat, d: nat): nat
    requires c < s && d > 0
  {
    ((c + 1) * d - 1) / s
  }

  lemma EdgeAtMost(i: nat, c: nat, s: nat, d: nat)
    requires c < s && d > 0
    ensures Edge(i, s, d) <= c <==> i <= Owner(c, s, d)
  {
    var p := i * s;
    var q := (c + 1) * d - 1;
    assert p / d <= c <==> p < (c + 1) * d by {
      Division(p, d, c);
    }
    assert i <= q / s <==> i * s <= q by {
      DivisionFrom(q, s, i);
    }
  }

  /** Each pixel is in exactly one tile, and the tile is one of the d. */
  lemma OneTileEach(c: nat, i: nat, s: nat, d: nat)
    requires c < s && 0 < d
    ensures Edge(i, s, d) <= c < Edge(i + 1, s, d) <==> i == Owner(c, s, d)
    ensures Owner(c, s, d) < d
  {
    EdgeAtMost(i, c, s, d);
    EdgeAtMost(i + 1, c, s, d);
    Product(c + 1, s, d);
    Division((c + 1) * d - 1, s, d - 1);
    hide Edge;
  }

  /** No tile is empty when there are no more tiles than pixels. */
  lemma TilesAreNonEmpty(i: nat, s: nat, d: nat)
    requires 0 < d <= s
    ensures Edge(i, s, d) < Edge(i + 1, s, d)
    ensures Edge(0, s, d) == 0 && Edge(d, s, d) == s
  {
    var p := i * s;
    assert (i + 1) * s == p + s;
    Division(p + s, d, p / d);
    assert p + s >= (p / d) * d + d == (p / d + 1) * d;
    assert d * s / d == s by {
      Division(d * s, d, s);
      DivisionFrom(d * s, d, s);
      assert s * d == d * s;
    }
  }

  lemma EdgesGrow(i: nat, j: nat, s: nat, d: nat)
    requires 0 < d && i <= j
    ensures Edge(i, s, d) <= Edge(j, s, d)
  {
    Product(i, j, s);
    QuotientsGrow(i * s, j * s, d);
  }

  // ----- Sums over a rectangle

  /** A channel of the source: the value at a column and a row. */
  type Channel = (nat, nat) -> nat

  function RowSum(w: Channel, y: nat, x0: nat, x1: nat): nat {
    if x1 <= x0 then 0 else RowSum(w, y, x0, x1 - 1) + w(x1 - 1, y)
  }

  function AreaSum(w: Channel, x0: nat, x1: nat, y0: nat, y1: nat): nat {
    if y1 <= y0 then 0 else AreaSum(w, x0, x1, y0, y1 - 1) + RowSum(w, y1 - 1, x0, x1)
  }

  const ONE: Channel := (_, _) => 1

  lemma {:induction false} RowSplits(w: Channel, y: nat, x0: nat, x1: nat, x2: nat)
    requires x0 <= x1 <= x2
    ensures RowSum(w, y, x0, x2) == RowSum(w, y, x0, x1) + RowSum(w, y, x1, x2)
  {
    if x1 < x2 {
      RowSplits(w, y, x0, x1, x2 - 1);
    }
  }

  lemma {:induction false} AreaSplitsAcross(w: Channel, x0: nat, x1: nat, x2: nat, y0: nat, y1: nat)
    requires x0 <= x1 <= x2
    ensures AreaSum(w, x0, x2, y0, y1) == AreaSum(w, x0, x1, y0, y1) + AreaSum(w, x1, x2, y0, y1)
  {
    if y0 < y1 {
      AreaSplitsAcross(w, x0, x1, x2, y0, y1 - 1);
      RowSplits(w, y1 - 1, x0, x1, x2);
    }
  }

  lemma {:induction false} AreaSplitsDown(w: Channel, x0: nat, x1: nat, y0: nat, y1: nat, y2: nat)
    requires y0 <= y1 <= y2
    ensures AreaSum(w, x0, x1, y0, y2) == AreaSum(w, x0, x1, y0, y1) + AreaSum(w, x0, x1, y1, y2)
  {
    if y1 < y2 {
      AreaSplitsDown(w, x0, x1, y0, y1, y2 - 1);
    }
  }

  /** The sums of the first n tiles of a row of tiles, and of the first n rows of them. */
  function TilesAcross(w: Channel, n: nat, sw: nat, dw: nat, y0: nat, y1: nat): nat
    requires dw > 0
  {
    if n == 0 then 0
    else TilesAcross(w, n - 1, sw, dw, y0, y1) + AreaSum(w, Edge(n - 1, sw, dw), Edge(n, sw, dw), y0, y1)
  }

  function TilesDown(w: Channel, n: nat, sw: nat, dw: nat, sh: nat, dh: nat): nat
    requires dw > 0 && dh > 0
  {
    if n == 0 then 0
    else TilesDown(w, n - 1, sw, dw, sh, dh) + TilesAcross(w, dw, sw, dw, Edge(n - 1, sh, dh), Edge(n, sh, dh))
  }

  lemma {:induction false} AcrossIsStrip(w: Channel, n: nat, sw: nat, dw: nat, y0: nat, y1: nat)
    requires dw > 0
    ensures TilesAcross(w, n, sw, dw, y0, y1) == AreaSum(w, 0, Edge(n, sw, dw), y0, y1)
  {
    if n == 0 {
      NoWidth(w, y0, y1);
    } else {
      hide Edge;
      AcrossIsStrip(w, n - 1, sw, dw, y0, y1);
      EdgesGrow(n - 1, n, sw, dw);
      AreaSplitsAcross(w, 0, Edge(n - 1, sw, dw), Edge(n, sw, dw), y0, y1);
    }
  }

  lemma {:induction false} NoWidth(w: Channel, y0: nat, y1: nat)
    ensures AreaSum(w, 0, 0, y0, y1) == 0
  {
    if y0 < y1 {
      NoWidth(w, y0, y1 - 1);
    }
  }

  lemma {:induction false} DownIsStrip(w: Channel, n: nat, sw: nat, dw: nat, sh: nat, dh: nat)
    requires dw > 0 && dh > 0
    ensures TilesDown(w, n, sw, dw, sh, dh) == AreaSum(w, 0, Edge(dw, sw, dw), 0, Edge(n, sh, dh))
  {
    if n > 0 {
      DownIsStrip(w, n - 1, sw, dw, sh, dh);
      EdgesGrow(n - 1, n, sh, dh);
      AcrossIsStrip(w, dw, sw, dw, Edge(n - 1, sh, dh), Edge(n, sh, dh));
      hide Edge, TilesAcross;
      AreaSplitsDown(w, 0, Edge(dw, sw, dw), 0, Edge(n - 1, sh, dh), Edge(n, sh, dh));
    }
  }

  /** Every source pixel is summed exactly once: over all tiles, any channel comes to its sum over the source. */
  lemma TilesCoverSource(w: Channel, sw: nat, sh: nat, dw: nat, dh: nat)
    requires 0 < dw <= sw && 0 < dh <= sh
    ensures TilesDown(w, dh, sw, dw, sh, dh) == AreaSum(w, 0, sw, 0, sh)
  {
    DownIsStrip(w, dh, sw, dw, sh, dh);
    TilesAreNonEmpty(0, sw, dw);
    TilesAreNonEmpty(0, sh, dh);
    hide Edge;
  }

  lemma {:induction false} RowOfOnes(y: nat, x0: nat, x1: nat)
    requires x0 <= x1
    ensures RowSum(ONE, y, x0, x1) == x1 - x0
  {
    if x0 < x1 {
      RowOfOnes(y, x0, x1 - 1);
    }
  }

  lemma {:induction false} AreaOfOnes(x0: nat, x1: nat, y0: nat, y1: nat)
    requires x0 <= x1 && y0 <= y1
    ensures AreaSum(ONE, x0, x1, y0, y1) == (x1 - x0) * (y1 - y0)
  {
    if y0 < y1 {
      AreaOfOnes(x0, x1, y0, y1 - 1);
      RowOfOnes(y1 - 1, x0, x1);
      hide RowSum;
      assert (x1 - x0) * (y1 - y0) == (x1 - x0) * (y1 - 1 - y0) + (x1 - x0);
    }
  }

  /** The pixels counted over all tiles are the source's pixels. */
  lemma CountsAddUp(sw: nat, sh: nat, dw: nat, dh: nat)
    requires 0 < dw <= sw && 0 < dh <= sh
    ensures TilesDown(ONE, dh, sw, dw, sh, dh) == sw * sh
  {
    TilesCoverSource(ONE, sw, sh, dw, dh);
    AreaOfOnes(0, sw, 0, sh);
    hide TilesDown, AreaSum;
  }

  lemma Distribute(a: nat, b: nat, c: nat)
    ensures a * (b + c) == a * b + a * c
  {
  }

  ghost predicate Between(w: Channel, x0: nat, x1: nat, y0: nat, y1: nat, low: nat, high: nat) {
    forall x: nat, y: nat :: x0 <= x < x1 && y0 <= y < y1 ==> low <= w(x, y) <= high
  }

  lemma {:induction false} RowBetween(w: Channel, y: nat, x0: nat, x1: nat, low: nat, high: nat)
    requires x0 <= x1 && Between(w, x0, x1, y, y + 1, low, high)
    ensures low * (x1 - x0) <= RowSum(w, y, x0, x1) <= high * (x1 - x0)
  {
    if x0 < x1 {
      RowBetween(w, y, x0, x1 - 1, low, high);
      assert low * (x1 - x0) == low * (x1 - 1 - x0) + low && high * (x1 - x0) == high * (x1 - 1 - x0) + high;
    }
  }

  lemma {:induction false} AreaBetween(w: Channel, x0: nat, x1: nat, y0: nat, y1: nat, low: nat, high: nat)
    requires x0 <= x1 && y0 <= y1 && Between(w, x0, x1, y0, y1, low, high)
    ensures low * AreaSum(ONE, x0, x1, y0, y1) <= AreaSum(w, x0, x1, y0, y1) <= high * AreaSum(ONE, x0, x1, y0, y1)
  {
    if y0 < y1 {
      AreaBetween(w, x0, x1, y0, y1 - 1, low, high);
      RowBetween(w, y1 - 1, x0, x1, low, high);
      RowOfOnes(y1 - 1, x0, x1);
      hide RowSum, Between;
      var before := AreaSum(ONE, x0, x1, y0, y1 - 1);
      Distribute(low, before, x1 - x0);
      Distribute(high, before, x1 - x0);
    }
  }

  // ----- The code

  datatype Color = Color(red: nat, green: nat, blue: nat, alpha: nat)

  /** A picture over bounds that begin anywhere. */
  datatype Image = Image(minX: int, minY: int, width: nat, height: nat, at: (int, int) -> Color)

  function Red(c: Color): nat { c.red }
  function Green(c: Color): nat { c.green }
  function Blue(c: Color): nat { c.blue }
  function Alpha(c: Color): nat { c.alpha }

  /** A channel by column and row, both counted from where the bounds begin. */
  function ChannelOf(src: Image, pick: Color -> nat): Channel { (x, y) => pick(src.at(src.minX + x, src.minY + y)) }

  /** The sixteen-bit mean of a channel over a rectangle, cut to eight bits. */
  function Mean(src: Image, pick: Color -> nat, x0: nat, x1: nat, y0: nat, y1: nat): nat
    requires AreaSum(ONE, x0, x1, y0, y1) > 0
  {
    AreaSum(ChannelOf(src, pick), x0, x1, y0, y1) / AreaSum(ONE, x0, x1, y0, y1) / 256
  }

  /** A channel of an averaged pixel lies between the least and the greatest of its rectangle. */
  lemma MeanIsBetween(src: Image, pick: Color -> nat, x0: nat, x1: nat, y0: nat, y1: nat, low: nat, high: nat)
    requires x0 < x1 && y0 < y1 && Between(ChannelOf(src, pick), x0, x1, y0, y1, low, high)
    ensures AreaSum(ONE, x0, x1, y0, y1) > 0
    ensures low / 256 <= Mean(src, pick, x0, x1, y0, y1) <= high / 256
  {
    AreaOfOnes(x0, x1, y0, y1);
    AreaBetween(ChannelOf(src, pick), x0, x1, y0, y1, low, high);
    var sum, count := AreaSum(ChannelOf(src, pick), x0, x1, y0, y1), AreaSum(ONE, x0, x1, y0, y1);
    hide AreaSum;
    assert (x1 - x0) * (y1 - y0) >= 1;
    DivisionFrom(sum, count, low);
    Division(sum, count, high);
  }

  /** Where tile i ends, with room for one pixel when there are more tiles than pixels. */
  function End(i: nat, s: nat, d: nat): nat
    requires d > 0
  {
    if Edge(i + 1, s, d) <= Edge(i, s, d) then Edge(i, s, d) + 1 else Edge(i + 1, s, d)
  }

  function Averaged(src: Image, x0: nat, x1: nat, y0: nat, y1: nat): Color
    requires AreaSum(ONE, x0, x1, y0, y1) > 0
  {
    Color(Mean(src, Red, x0, x1, y0, y1), Mean(src, Green, x0, x1, y0, y1),
          Mean(src, Blue, x0, x1, y0, y1), Mean(src, Alpha, x0, x1, y0, y1))
  }

  lemma SomethingToAverage(x0: nat, x1: nat, y0: nat, y1: nat)
    requires x0 < x1 && y0 < y1
    ensures AreaSum(ONE, x0, x1, y0, y1) > 0
  {
    AreaOfOnes(x0, x1, y0, y1);
    Product(1, x1 - x0, y1 - y0);
  }

  function Tile(src: Image, x: nat, y: nat, dw: nat, dh: nat): Color
    requires 0 < dw && 0 < dh
  {
    var x0, x1, y0, y1 := Edge(x, src.width, dw), End(x, src.width, dw), Edge(y, src.height, dh), End(y, src.height, dh);
    SomethingToAverage(x0, x1, y0, y1);
    Averaged(src, x0, x1, y0, y1)
  }

  lemma {:induction false} SameRow(v: Channel, w: Channel, y: nat, x0: nat, x1: nat)
    requires forall x: nat, y: nat :: v(x, y) == w(x, y)
    ensures RowSum(v, y, x0, x1) == RowSum(w, y, x0, x1)
  {
    if x0 < x1 {
      SameRow(v, w, y, x0, x1 - 1);
    }
  }

  lemma {:induction false} SameArea(v: Channel, w: Channel, x0: nat, x1: nat, y0: nat, y1: nat)
    requires forall x: nat, y: nat :: v(x, y) == w(x, y)
    ensures AreaSum(v, x0, x1, y0, y1) == AreaSum(w, x0, x1, y0, y1)
  {
    if y0 < y1 {
      SameRow(v, w, y1 - 1, x0, x1);
      SameArea(v, w, x0, x1, y0, y1 - 1);
    }
  }

  /** A value is the mean of these sixteen-bit ones, cut to eight bits. */
  predicate IsMean(value: nat, w: Channel, x0: nat, x1: nat, y0: nat, y1: nat) {
    x0 <= x1 && y0 <= y1 &&
    var sum, count := AreaSum(w, x0, x1, y0, y1), (x1 - x0) * (y1 - y0);
    value * 256 * count <= sum < (value + 1) * 256 * count
  }

  lemma CutTwice(sum: nat, count: nat)
    requires count > 0
    ensures var value := sum / count / 256; value * 256 * count <= sum < (value + 1) * 256 * count
  {
    var mean := sum / count;
    var value := mean / 256;
    assert value * 256 <= mean < (value + 1) * 256;
    Product(value * 256, mean, count);
    Product(mean + 1, (value + 1) * 256, count);
    assert mean * count <= sum < (mean + 1) * count;
  }

  lemma MeanIsMean(src: Image, pick: Color -> nat, w: Channel, x0: nat, x1: nat, y0: nat, y1: nat)
    requires x0 < x1 && y0 < y1 && forall x: nat, y: nat :: w(x, y) == pick(src.at(src.minX + x, src.minY + y))
    ensures AreaSum(ONE, x0, x1, y0, y1) > 0 && IsMean(Mean(src, pick, x0, x1, y0, y1), w, x0, x1, y0, y1)
  {
    SomethingToAverage(x0, x1, y0, y1);
    AreaOfOnes(x0, x1, y0, y1);
    assert forall x: nat, y: nat :: ChannelOf(src, pick)(x, y) == w(x, y);
    SameArea(ChannelOf(src, pick), w, x0, x1, y0, y1);
    hide AreaSum, ChannelOf;
    CutTwice(AreaSum(w, x0, x1, y0, y1), (x1 - x0) * (y1 - y0));
  }

  /** A destination pixel's channels are the means of that same channel over its tile of the source. */
  lemma TileIsTheMean(src: Image, x: nat, y: nat, dw: nat, dh: nat)
    requires 0 < dw && 0 < dh
    ensures var pixel := Tile(src, x, y, dw, dh);
            var x0, y0 := x * src.width / dw, y * src.height / dh;
            var x1 := if (x + 1) * src.width / dw > x0 then (x + 1) * src.width / dw else x0 + 1;
            var y1 := if (y + 1) * src.height / dh > y0 then (y + 1) * src.height / dh else y0 + 1;
            && IsMean(pixel.red, (i, j) => src.at(src.minX + i, src.minY + j).red, x0, x1, y0, y1)
            && IsMean(pixel.green, (i, j) => src.at(src.minX + i, src.minY + j).green, x0, x1, y0, y1)
            && IsMean(pixel.blue, (i, j) => src.at(src.minX + i, src.minY + j).blue, x0, x1, y0, y1)
            && IsMean(pixel.alpha, (i, j) => src.at(src.minX + i, src.minY + j).alpha, x0, x1, y0, y1)
  {
    var x0, x1, y0, y1 := Edge(x, src.width, dw), End(x, src.width, dw), Edge(y, src.height, dh), End(y, src.height, dh);
    MeanIsMean(src, Red, (i, j) => src.at(src.minX + i, src.minY + j).red, x0, x1, y0, y1);
    MeanIsMean(src, Green, (i, j) => src.at(src.minX + i, src.minY + j).green, x0, x1, y0, y1);
    MeanIsMean(src, Blue, (i, j) => src.at(src.minX + i, src.minY + j).blue, x0, x1, y0, y1);
    MeanIsMean(src, Alpha, (i, j) => src.at(src.minX + i, src.minY + j).alpha, x0, x1, y0, y1);
    hide IsMean, Mean, AreaSum;
  }

  /** Sums one channel over a rectangle. */
  method Sum(w: Channel, x0: nat, x1: nat, y0: nat, y1: nat) returns (sum: nat)
    requires x0 <= x1 && y0 <= y1
    ensures sum == AreaSum(w, x0, x1, y0, y1)
  {
    sum := 0;
    var sy := y0;
    while sy < y1
      invariant y0 <= sy <= y1 && sum == AreaSum(w, x0, x1, y0, sy)
    {
      var sx := x0;
      while sx < x1
        invariant x0 <= sx <= x1 && sum == AreaSum(w, x0, x1, y0, sy) + RowSum(w, sy, x0, sx)
      {
        sum := sum + w(sx, sy);
        sx := sx + 1;
      }
      sy := sy + 1;
    }
  }

  /** Every destination pixel becomes the average of its tile; nothing is written from or to an empty picture. */
  method DownscaleArea(src: Image, dst: array2<Color>)
    modifies dst
    ensures 0 < src.width && 0 < src.height ==>
              forall x, y :: 0 <= x < dst.Length1 && 0 <= y < dst.Length0 ==>
                dst[y, x] == Tile(src, x, y, dst.Length1, dst.Length0)
    ensures src.width == 0 || src.height == 0 ==>
              forall x, y :: 0 <= x < dst.Length1 && 0 <= y < dst.Length0 ==> dst[y, x] == old(dst[y, x])
  {
    var dw, dh := dst.Length1, dst.Length0;
    if dw <= 0 || dh <= 0 || src.width <= 0 || src.height <= 0 {
      return;
    }
    for y := 0 to dh
      invariant forall i, j :: 0 <= i < dw && 0 <= j < y ==> dst[j, i] == Tile(src, i, j, dw, dh)
    {
      for x := 0 to dw
        invariant forall i, j :: 0 <= i < dw && 0 <= j < y ==> dst[j, i] == Tile(src, i, j, dw, dh)
        invariant forall i :: 0 <= i < x ==> dst[y, i] == Tile(src, i, y, dw, dh)
      {
        var pixel := AverageTile(src, x, y, dw, dh);
        hide Tile;
        dst[y, x] := pixel;
      }
    }
  }

  method AverageTile(src: Image, x: nat, y: nat, dw: nat, dh: nat) returns (pixel: Color)
    requires 0 < dw && 0 < dh
    ensures pixel == Tile(src, x, y, dw, dh)
  {
    hide Edge, AreaSum, Mean;
    var y0 := Edge(y, src.height, dh);
    var y1 := Edge(y + 1, src.height, dh);
    if y1 <= y0 {
      y1 := y0 + 1;
    }
    var x0 := Edge(x, src.width, dw);
    var x1 := Edge(x + 1, src.width, dw);
    if x1 <= x0 {
      x1 := x0 + 1;
    }
    pixel := Average(src, x0, x1, y0, y1);
  }

  method Average(src: Image, x0: nat, x1: nat, y0: nat, y1: nat) returns (pixel: Color)
    requires x0 < x1 && y0 < y1
    ensures AreaSum(ONE, x0, x1, y0, y1) > 0 && pixel == Averaged(src, x0, x1, y0, y1)
  {
    hide AreaSum, ChannelOf;
    SomethingToAverage(x0, x1, y0, y1);
    var red := Sum(ChannelOf(src, Red), x0, x1, y0, y1);
    var green := Sum(ChannelOf(src, Green), x0, x1, y0, y1);
    var blue := Sum(ChannelOf(src, Blue), x0, x1, y0, y1);
    var alpha := Sum(ChannelOf(src, Alpha), x0, x1, y0, y1);
    var count := Sum(ONE, x0, x1, y0, y1);
    pixel := Color(red / count / 256, green / count / 256, blue / count / 256, alpha / count / 256);
  }

  /** For a size a profile gives, a destination pixel's tile is its own stretch of the source and nobody else's. */
  lemma TileIsItsStretch(maxWidth: int, width: nat, height: nat, x: nat, y: nat, column: nat, row: nat)
    requires 0 < maxWidth && column < width && row < height
    ensures var (dw, dh) := TargetSize(maxWidth, width, height);
            && 0 < dw && 0 < dh
            && End(x, width, dw) == Edge(x + 1, width, dw) && End(y, height, dh) == Edge(y + 1, height, dh)
            && (Edge(x, width, dw) <= column < End(x, width, dw) && Edge(y, height, dh) <= row < End(y, height, dh)
                <==> x == Owner(column, width, dw) && y == Owner(row, height, dh))
            && Owner(column, width, dw) < dw && Owner(row, height, dh) < dh
  {
    TargetFits(maxWidth, width, height);
    var (dw, dh) := TargetSize(maxWidth, width, height);
    TilesAreNonEmpty(x, width, dw);
    TilesAreNonEmpty(y, height, dh);
    OneTileEach(column, x, width, dw);
    OneTileEach(row, y, height, dh);
    hide Edge, Owner, TargetSize;
  }
}
