/** The clamp of src/main.rs:131-132: a neighbour coordinate that leaves the
    `i32` range or goes negative is replaced by 0 rather than skipped. This
    module compares the border rule as written with the reading that skips
    such neighbours, and shows exactly when the two differ. */
module BorderClamp {
  import opened Numeric
  import opened Images
  import opened Rules

  /** Largest image side for which no neighbour coordinate of an in-bounds
      pixel can reach coordinate 0 by wrapping past `i32::MAX` before the
      straight path along the same axis has reached it. */
  const SideBound: nat := 0x4000_0000

  /** On a side of at most `SideBound`, a neighbour coordinate either is the
      plain sum or was clamped to 0 from a step longer than the coordinate. */
  lemma NeighbourCoordClamped(c: uint32, delta: int32)
    requires c < SideBound && delta != I32Min
    ensures NeighbourCoord(c, delta) == c + delta ||
            (NeighbourCoord(c, delta) == 0 && c < (if delta < 0 then -delta else delta))
  {
    NeighbourCoordClamp(c, delta);
  }

  /** A hit to the left or right is a hit of the skipping reading: either the
      coordinate was not clamped, or it was clamped to 0 and the step of
      length `x` to the left reaches the same pixel (`x` is 0 only when the
      clamp lands on the centre pixel, which differs from itself by 0 < t). */
  lemma HorizontalHitIsSkipHit(img: Image, x: uint32, y: uint32, t: int32, d: int32, dir: nat, k: int32)
    returns (dir': nat, k': int)
    requires img.Valid() && img.InBounds(x, y) && (dir == 0 || dir == 1) && 1 <= k <= d
    requires t >= 1 && img.width <= SideBound && img.height <= SideBound
    requires NeighbourHit(img, x, y, t, dir, k)
    ensures dir' < 4 && 1 <= k' <= d && SkipHit(img, x, y, t, dir', k')
  {
    var dx := StepOffset(dir, k).0;
    assert StepOffset(dir, k).1 == 0 && (dx == k || dx == -k);
    var nx := NeighbourCoord(x, dx);
    NeighbourCoordClamped(x, dx);
    assert img.InBounds(nx, y) && MaxAbsDiff(img.Pixel(nx, y), img.Pixel(x, y)) >= t;
    if nx == x + dx {
      dir', k' := dir, k;
    } else {
      assert nx == 0;
      MaxAbsDiffSelf(img.Pixel(x, y));
      assert x != 0;
      dir', k' := 0, x;
    }
  }

  /** The same for a hit upwards or downwards, with the step of length `y` up. */
  lemma VerticalHitIsSkipHit(img: Image, x: uint32, y: uint32, t: int32, d: int32, dir: nat, k: int32)
    returns (dir': nat, k': int)
    requires img.Valid() && img.InBounds(x, y) && (dir == 2 || dir == 3) && 1 <= k <= d
    requires t >= 1 && img.width <= SideBound && img.height <= SideBound
    requires NeighbourHit(img, x, y, t, dir, k)
    ensures dir' < 4 && 1 <= k' <= d && SkipHit(img, x, y, t, dir', k')
  {
    var dy := StepOffset(dir, k).1;
    assert StepOffset(dir, k).0 == 0 && (dy == k || dy == -k);
    var ny := NeighbourCoord(y, dy);
    NeighbourCoordClamped(y, dy);
    assert img.InBounds(x, ny) && MaxAbsDiff(img.Pixel(x, ny), img.Pixel(x, y)) >= t;
    if ny == y + dy {
      dir', k' := dir, k;
    } else {
      assert ny == 0;
      MaxAbsDiffSelf(img.Pixel(x, y));
      assert y != 0;
      dir', k' := 2, y;
    }
  }

  lemma SkipHitIsHit(img: Image, x: uint32, y: uint32, t: int32, d: int32, dir: nat, k: int)
    requires img.Valid() && img.InBounds(x, y) && dir < 4 && 1 <= k <= d
    requires img.width <= SideBound && img.height <= SideBound
    requires SkipHit(img, x, y, t, dir, k)
    ensures BorderWitnessed(img, x, y, t, d)
  {
    assert NeighbourHit(img, x, y, t, dir, k);
  }

  /** The clamp of a negative neighbour coordinate to 0 is invisible whenever
      the threshold is positive: it only ever re-compares a pixel that the
      straight path along the same axis compares anyway, or the centre pixel
      with itself. (Image sides up to 2^30 keep `i32` wrap-around out of it.) */
  lemma BorderClampInvisible(t: int32, d: int32, img: Image, x: uint32, y: uint32)
    requires img.Valid() && img.InBounds(x, y)
    requires t >= 1 && img.width <= SideBound && img.height <= SideBound
    ensures IsOn(Border(t, d), img, x, y) <==> BorderSkipping(img, x, y, t, d)
  {
    BorderOnIff(img, x, y, t, d);
    if BorderWitnessed(img, x, y, t, d) {
      var dir: nat, k: int32 :| dir < 4 && 1 <= k <= d && NeighbourHit(img, x, y, t, dir, k);
      var dir': nat, k': int;
      if dir < 2 {
        dir', k' := HorizontalHitIsSkipHit(img, x, y, t, d, dir, k);
      } else {
        dir', k' := VerticalHitIsSkipHit(img, x, y, t, d, dir, k);
      }
    }
    if BorderSkipping(img, x, y, t, d) {
      var dir: nat, k: int :| dir < 4 && 1 <= k <= d && SkipHit(img, x, y, t, dir, k);
      SkipHitIsHit(img, x, y, t, d, dir, k);
    }
  }

  /** With a non-positive threshold the clamp shows: in a 1 x 1 image the
      left neighbour at step 1 is clamped onto the pixel itself, which differs
      from itself by 0 >= threshold, so `Border(0, 1)` is on although the pixel
      has no neighbour at all. */
  lemma BorderClampVisible(img: Image, p: seq<uint8>)
    requires |p| == Channels && img == Image(1, 1, [[p]])
    ensures img.Valid()
    ensures IsOn(Border(0, 1), img, 0, 0)
    ensures !BorderSkipping(img, 0, 0, 0, 1)
  {
    SinglePixelClampedHit(img, p);
    assert StepHits(img, 0, 0, 0, 0)(1);
    assert AnyInRange(StepHits(img, 0, 0, 0, 0), 1, 1);
    forall dir: nat, k: int | dir < 4 && 1 <= k <= 1
      ensures !SkipHit(img, 0, 0, 0, dir, k)
    {
      assert !img.InBounds(StepOffset(dir, k).0, StepOffset(dir, k).1);
    }
  }

  /** The step to the left of the only pixel is clamped back onto it. */
  lemma SinglePixelClampedHit(img: Image, p: seq<uint8>)
    requires |p| == Channels && img == Image(1, 1, [[p]])
    ensures img.Valid() && img.InBounds(0, 0)
    ensures NeighbourHit(img, 0, 0, 0, 0, 1)
  {
    assert img.Valid();
    var nx := NeighbourCoord(0, StepOffset(0, 1).0);
    var ny := NeighbourCoord(0, StepOffset(0, 1).1);
    assert nx == 0 && ny == 0 by {
      assert StepOffset(0, 1) == (-1, 0);
      assert WrapI32(0) == 0 && WrapI32(-1) == -1;
    }
    assert img.InBounds(nx, ny);
    assert MaxAbsDiff(img.Pixel(nx, ny), img.Pixel(0, 0)) >= 0;
  }
}
