/**
 * The mask side of grid generation: from the pixel size of a decoded mask
 * image to the lattice size of its grid, where each lattice position reads
 * its colour in the RGBA data that the canvas hands back, and when that
 * colour switches a cell on.
 *
 * JavaScript works in doubles; here the aspect ratio, the rounding and the
 * brightness are exact integer or real arithmetic.
 */
module Mask {

  import opened Arith

  /** One channel value of the canvas's RGBA data (a clamped 8-bit array). */
  type Byte = b: int | 0 <= b < 256

  /** The largest side of every grid, in cells. */
  const GridSize: nat := 24

  /** Channels per pixel in canvas image data (R, G, B, A). */
  const Channels: nat := 4

  /** A cell exists where the mean of R, G and B is below this value. */
  const Threshold: real := 128.0

  datatype Dims = Dims(width: nat, height: nat)

  /** JavaScript's Math.round over the reals: the nearest integer, halves rounded up. */
  function JsRound(v: real): (r: int)
    ensures r as real - 0.5 <= v < r as real + 0.5
  {
    (v + 0.5).Floor
  }

  /** Math.round(n / d) for a non-negative ratio, in integers. */
  function RoundRatio(n: nat, d: nat): (r: nat)
    requires d > 0
    ensures 2 * d * r <= 2 * n + d < 2 * d * (r + 1)
  {
    DivBounds(2 * n + d, 2 * d);
    (2 * n + d) / (2 * d)
  }

  lemma DivBounds(a: nat, b: nat)
    requires b > 0
    ensures b * (a / b) <= a < b * (a / b + 1)
  {
  }

  /**
   * The lattice size chosen for a mask of W x H pixels: the wider side gets
   * `size` cells and the other side the rounded proportional count. A square
   * mask takes the else branch. A 0 x 0 image (NaN aspect ratio) is not
   * modelled; a single zero side behaves like JavaScript's Infinity or 0
   * ratio.
   */
  function GridDims(W: nat, H: nat, size: nat): (d: Dims)
    requires W > 0 || H > 0
    ensures W > H ==> d.width == size && d.height <= size
    ensures W <= H ==> d.height == size && d.width <= size
  {
    if W > H then
      RoundedBelow(H, W, size);
      Dims(size, RoundRatio(size * H, W))
    else
      RoundedBelow(W, H, size);
      Dims(RoundRatio(size * W, H), size)
  }

  /** The rounded proportional side never exceeds the dominant one. */
  lemma RoundedBelow(a: nat, b: nat, size: nat)
    requires a <= b && b > 0
    ensures RoundRatio(size * a, b) <= size
  {
    var r := RoundRatio(size * a, b);
    assert size * a <= size * b by {
      MulMono(size, a, b);
    }
    assert 2 * b * r < 2 * b * (size + 1);
    CancelLt(2 * b, r, size + 1);
  }

  function Max(a: nat, b: nat): nat
  {
    if a < b then b else a
  }

  /** The dominant side is exactly `size`: the lattice is at most size x size. */
  lemma {:induction false} GridDimsMax(W: nat, H: nat, size: nat)
    requires W > 0 || H > 0
    ensures Max(GridDims(W, H, size).width, GridDims(W, H, size).height) == size
  {
    var d := GridDims(W, H, size);
    if W > H {
      assert d.width == size && d.height <= size;
    } else {
      assert d.height == size && d.width <= size;
    }
  }

  /**
   * The integer computation agrees with the source's own formulas over the
   * reals: round(size / (W / H)) on the wide branch, round(size * (W / H))
   * on the other.
   */
  lemma {:induction false} GridDimsIsRounding(W: nat, H: nat, size: nat)
    requires W > 0 && H > 0
    ensures var aspect := W as real / H as real;
            var d := GridDims(W, H, size);
            (aspect > 1.0 <==> W > H) &&
            (aspect > 1.0 ==> d.width == size && d.height == JsRound(size as real / aspect)) &&
            (aspect <= 1.0 ==> d.height == size && d.width == JsRound(size as real * aspect))
  {
    RatioAboveOne(W as real, H as real);
    if W > H {
      WideRounding(W, H, size);
    } else {
      TallRounding(W, H, size);
    }
  }

  lemma WideRounding(W: nat, H: nat, size: nat)
    requires W > H > 0
    ensures GridDims(W, H, size).height == JsRound(size as real / (W as real / H as real))
  {
    assert size as real / (W as real / H as real) == (size * H) as real / W as real;
    RoundRatioIsJsRound(size * H, W);
  }

  lemma TallRounding(W: nat, H: nat, size: nat)
    requires 0 < W <= H
    ensures GridDims(W, H, size).width == JsRound(size as real * (W as real / H as real))
  {
    assert size as real * (W as real / H as real) == (size * W) as real / H as real;
    RoundRatioIsJsRound(size * W, H);
  }

  lemma RoundRatioIsJsRound(n: nat, d: nat)
    requires d > 0
    ensures RoundRatio(n, d) == JsRound(n as real / d as real)
  {
    var r := RoundRatio(n, d);
    var v := n as real / d as real + 0.5;
    assert v == (2 * n + d) as real / (2 * d) as real;
    assert (2 * d * r) as real <= (2 * n + d) as real < (2 * d * (r + 1)) as real;
    DivideBounds((2 * n + d) as real, (2 * d) as real, r);
  }

  lemma DivideBounds(a: real, b: real, r: int)
    requires b > 0.0 && b * r as real <= a < b * (r + 1) as real
    ensures (a / b).Floor == r
  {
    var q := a / b;
    assert q * b == a;
    RealCancelLe(b, r as real, q);
    RealCancelLt(b, q, (r + 1) as real);
  }

  lemma RatioAboveOne(a: real, b: real)
    requires b > 0.0
    ensures a / b > 1.0 <==> a > b
  {
    var q := a / b;
    assert q * b == a;
    if q > 1.0 {
      RealCancelLt(b, 1.0, q);
    }
    if a > b {
      assert b * 1.0 < b * q;
      RealCancelLt(b, 1.0, q);
    }
  }

  /** Swapping the mask's sides swaps the lattice's sides. */
  lemma GridDimsTranspose(W: nat, H: nat, size: nat)
    requires W > 0 || H > 0
    ensures GridDims(H, W, size) == Dims(GridDims(W, H, size).height, GridDims(W, H, size).width)
  {
    if W == H {
      RoundRatioWhole(size, W);
    }
  }

  /** A whole ratio needs no rounding. */
  lemma RoundRatioWhole(k: nat, d: nat)
    requires d > 0
    ensures RoundRatio(k * d, d) == k
  {
    var r := RoundRatio(k * d, d);
    assert 2 * (k * d) + d < 2 * d * (k + 1);
    assert 2 * d * k <= 2 * (k * d) + d;
    CancelLt(2 * d, r, k + 1);
    CancelLt(2 * d, k, r + 1);
  }

  /** Only the aspect ratio matters: scaling both sides by k gives the same lattice. */
  lemma {:induction false} GridDimsScale(W: nat, H: nat, k: nat, size: nat)
    requires (W > 0 || H > 0) && k > 0
    ensures GridDims(k * W, k * H, size) == GridDims(W, H, size)
  {
    if W > H {
      StrictMulMono(k, H, W);
      ScaledSide(H, W, k, size);
    } else {
      MulMono(k, W, H);
      ScaledSide(W, H, k, size);
    }
  }

  lemma ScaledSide(short: nat, long: nat, k: nat, size: nat)
    requires long > 0 && k > 0
    ensures RoundRatio(size * (k * short), k * long) == RoundRatio(size * short, long)
  {
    MulSwap(size, k, short);
    RoundRatioScale(size * short, long, k);
  }

  lemma RoundRatioScale(n: nat, d: nat, k: nat)
    requires d > 0 && k > 0
    ensures RoundRatio(k * n, k * d) == RoundRatio(n, d)
  {
    var r := RoundRatio(n, d);
    var s := RoundRatio(k * n, k * d);
    assert 2 * (k * d) * s <= 2 * (k * n) + k * d < 2 * (k * d) * (s + 1);
    assert k * (2 * d * s) <= k * (2 * n + d) < k * (2 * d * (s + 1));
    assert 2 * d * s <= 2 * n + d < 2 * d * (s + 1) by {
      CancelLe(k, 2 * d * s, 2 * n + d);
      CancelLt(k, 2 * n + d, 2 * d * (s + 1));
    }
    if s < r {
      MulMono(2 * d, s + 1, r);
    } else if s > r {
      MulMono(2 * d, r + 1, s);
    }
  }

  /**
   * There is no minimum of one cell: the short side is zero exactly when the
   * mask is more than 2 * size times longer than it is wide or tall.
   */
  lemma {:induction false} GridDimsZeroSide(W: nat, H: nat, size: nat)
    requires (W > 0 || H > 0) && size > 0
    ensures GridDims(W, H, size).height == 0 <==> W > H && 2 * (size * H) < W
    ensures GridDims(W, H, size).width == 0 <==> W <= H && 2 * (size * W) < H
  {
    if W > H {
      RoundRatioZero(size * H, W);
    } else {
      RoundRatioZero(size * W, H);
    }
  }

  /** A ratio rounds to zero exactly when it is below one half. */
  lemma RoundRatioZero(n: nat, d: nat)
    requires d > 0
    ensures RoundRatio(n, d) == 0 <==> 2 * n < d
  {
    var r := RoundRatio(n, d);
    if r > 0 {
      MulMono(2 * d, 1, r);
    }
  }

  /**
   * Where lattice cell (x, y) reads its colour: the canvas rows run top to
   * bottom, so lattice row y reads canvas row height - 1 - y.
   */
  function PixelIndex(x: nat, y: nat, width: nat, height: nat): (i: nat)
    requires x < width && y < height
    ensures i % Channels == 0 && i + Channels <= Channels * width * height
  {
    PixelInRange(x, height - 1 - y, width, height);
    ((height - 1 - y) * width + x) * Channels
  }

  lemma PixelInRange(x: nat, row: nat, width: nat, height: nat)
    requires x < width && row < height
    ensures row * width + x < width * height
  {
    MulMono(width, row, height - 1);
    assert row * width <= (height - 1) * width;
  }

  /** The index decodes back to canvas column x and canvas row height - 1 - y. */
  lemma {:induction false} PixelIndexDecodes(x: nat, y: nat, width: nat, height: nat)
    requires x < width && y < height
    ensures PixelIndex(x, y, width, height) / Channels % width == x
    ensures PixelIndex(x, y, width, height) / Channels / width == height - 1 - y
  {
    var p := (height - 1 - y) * width + x;
    assert PixelIndex(x, y, width, height) / Channels == p;
    DivModUnique(p, width, height - 1 - y, x);
  }

  lemma DivModUnique(p: nat, w: nat, q: nat, r: nat)
    requires r < w && p == q * w + r
    ensures p / w == q && p % w == r
  {
    var q', r' := p / w, p % w;
    assert p == q' * w + r';
    assert w * q < w * (q' + 1);
    assert w * q' < w * (q + 1);
    CancelLt(w, q, q' + 1);
    CancelLt(w, q', q + 1);
  }

  /** Distinct lattice cells read distinct pixels. */
  lemma {:induction false} PixelIndexInjective(x: nat, y: nat, x': nat, y': nat, width: nat, height: nat)
    requires x < width && y < height && x' < width && y' < height
    requires PixelIndex(x, y, width, height) == PixelIndex(x', y', width, height)
    ensures x == x' && y == y'
  {
    PixelIndexDecodes(x, y, width, height);
    PixelIndexDecodes(x', y', width, height);
  }

  /** The unweighted mean of the red, green and blue channels. */
  function Brightness(r: Byte, g: Byte, b: Byte): (v: real)
    ensures 0.0 <= v <= 255.0
  {
    (r + g + b) as real / 3.0
  }

  predicate IsDark(r: Byte, g: Byte, b: Byte)
  {
    Brightness(r, g, b) < Threshold
  }

  /** The brightness test is the integer test r + g + b < 384. */
  lemma IsDarkIntegral(r: Byte, g: Byte, b: Byte)
    ensures IsDark(r, g, b) <==> r + g + b < 384
  {
  }

  /** Whether lattice cell (x, y) of a width x height mask holds a cell. */
  predicate DarkAt(data: seq<Byte>, width: nat, height: nat, x: nat, y: nat)
    requires |data| == Channels * width * height
    requires x < width && y < height
    ensures var i := PixelIndex(x, y, width, height);
            DarkAt(data, width, height, x, y) <==> data[i] as int + data[i + 1] as int + data[i + 2] as int < 384
  {
    var i := PixelIndex(x, y, width, height);
    IsDarkIntegral(data[i], data[i + 1], data[i + 2]);
    IsDark(data[i], data[i + 1], data[i + 2])
  }
}
