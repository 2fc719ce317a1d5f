/** The decoded image the rules read: a `width` x `height` grid of pixels, each
    pixel the four channel bytes (red, green, blue, alpha) that
    `DynamicImage::get_pixel` yields, with the per-pixel arithmetic the rules
    use on them. */
module Images {
  import opened Numeric

  /** Channels per pixel: `get_pixel` on a `DynamicImage` returns `Rgba<u8>`. */
  const Channels: nat := 4

  /** `pixels[y][x]` is the pixel in column `x` of row `y`. */
  datatype Image = Image(width: nat, height: nat, pixels: seq<seq<seq<uint8>>>)
  {
    ghost predicate Valid()
    {
      && width <= U32Max
      && height <= U32Max
      && |pixels| == height
      && (forall y :: 0 <= y < height ==> |pixels[y]| == width)
      && (forall y, x :: 0 <= y < height && 0 <= x < width ==> |pixels[y][x]| == Channels)
    }

    /** `in_bounds(x, y)` */
    predicate InBounds(x: int, y: int)
    {
      0 <= x < width && 0 <= y < height
    }

    /** `get_pixel(x, y).0` */
    function Pixel(x: int, y: int): (p: seq<uint8>)
      requires Valid() && InBounds(x, y)
      ensures |p| == Channels
    {
      pixels[y][x]
    }
  }

  /** `.iter().map(|&v| v as i32).sum::<i32>()` over a pixel's channels. */
  function ChannelSum(p: seq<uint8>): (r: int)
    ensures 0 <= r <= 255 * |p|
  {
    if p == [] then 0 else p[0] + ChannelSum(p[1..])
  }

  /** A pixel whose every channel is at least the matching channel of another
      has at least its channel sum. */
  lemma {:induction false} ChannelSumMonotone(p: seq<uint8>, q: seq<uint8>)
    requires |p| == |q|
    requires forall i :: 0 <= i < |p| ==> p[i] <= q[i]
    ensures ChannelSum(p) <= ChannelSum(q)
  {
    if p != [] {
      ChannelSumMonotone(p[1..], q[1..]);
    }
  }

  /** `to_rgb().0`: the red, green and blue channels, alpha dropped. */
  function ToRgb(p: seq<uint8>): (rgb: seq<uint8>)
    requires |p| == Channels
    ensures |rgb| == 3
    ensures forall i :: 0 <= i < 3 ==> rgb[i] == p[i]
  {
    p[..3]
  }

  /** `absdiff(a, b)` (src/main.rs:96): the distance between two bytes,
      computed without leaving `u8`. */
  function AbsDiff(a: uint8, b: uint8): (r: uint8)
    ensures r == a - b || r == b - a
    ensures r >= a - b && r >= b - a
  {
    if a > b then a - b else b - a
  }

  /** `a.iter().zip(b.iter()).map(absdiff).max().unwrap_or(0)` over the
      channels the two pixels share. */
  function MaxAbsDiff(a: seq<uint8>, b: seq<uint8>): nat
  {
    if a == [] || b == [] then 0
    else
      Max(AbsDiff(a[0], b[0]), MaxAbsDiff(a[1..], b[1..]))
  }

  /** `MaxAbsDiff` is the largest channel distance over the channels the two
      pixels share: no zipped distance exceeds it, and one attains it unless
      there is none, in which case it is 0. */
  lemma {:induction false} MaxAbsDiffIsMax(a: seq<uint8>, b: seq<uint8>)
    ensures forall i :: 0 <= i < |a| && i < |b| ==> AbsDiff(a[i], b[i]) <= MaxAbsDiff(a, b)
    ensures (MaxAbsDiff(a, b) == 0 && (a == [] || b == [])) ||
            exists i :: 0 <= i < |a| && i < |b| && MaxAbsDiff(a, b) == AbsDiff(a[i], b[i])
  {
    if a != [] && b != [] {
      MaxAbsDiffIsMax(a[1..], b[1..]);
      forall i | 1 <= i < |a| && i < |b|
        ensures AbsDiff(a[i], b[i]) <= MaxAbsDiff(a, b)
      {
        assert a[i] == a[1..][i - 1] && b[i] == b[1..][i - 1];
      }
      if MaxAbsDiff(a, b) != AbsDiff(a[0], b[0]) {
        var i :| 0 <= i < |a[1..]| && i < |b[1..]| && MaxAbsDiff(a[1..], b[1..]) == AbsDiff(a[1..][i], b[1..][i]);
        assert MaxAbsDiff(a, b) == AbsDiff(a[i + 1], b[i + 1]);
      }
    }
  }

  /** A pixel differs from itself by nothing. */
  lemma {:induction false} MaxAbsDiffSelf(p: seq<uint8>)
    ensures MaxAbsDiff(p, p) == 0
  {
    if p != [] {
      MaxAbsDiffSelf(p[1..]);
    }
  }
}
