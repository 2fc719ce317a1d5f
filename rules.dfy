/** `OnOffRule` and `is_on` (src/main.rs:89-151): the three rules that decide
    whether one pixel of the image is an "on" dot. */
module Rules {
  import opened Numeric
  import opened Images

  datatype OnOffRule =
    | PxThreshold(threshold: int32)
    | InvertedPxThreshold(threshold: int32)
    | Border(threshold: int32, distance: int32)

  /** The four unit directions of the border rule as `(dx, dy)`, in the order
      of src/main.rs:126. */
  const Directions: seq<(int, int)> := [(-1, 0), (1, 0), (0, -1), (0, 1)]

  /** The offset of the neighbour `k` steps away in direction `dir`
      (src/main.rs:129), with the unit vector of `Directions` multiplied out;
      `StepOffsetScales` states that it is `(dx * k, dy * k)`. */
  function StepOffset(dir: nat, k: int): (int, int)
    requires dir < 4
  {
    if dir == 0 then (-k, 0)
    else if dir == 1 then (k, 0)
    else if dir == 2 then (0, -k)
    else (0, k)
  }

  lemma StepOffsetScales(dir: nat, k: int)
    requires dir < 4
    ensures StepOffset(dir, k) == (Directions[dir].0 * k, Directions[dir].1 * k)
  {
  }

  /** Whether the neighbour reached from `(x, y)` by `k` steps in direction
      `dir` exists and differs from the centre pixel by at least `t` in some
      channel, with the neighbour coordinate computed as the source computes
      it (wrapping `i32` arithmetic, negative values clamped to 0). */
  predicate NeighbourHit(img: Image, x: uint32, y: uint32, t: int32, dir: nat, k: int32)
    requires img.Valid() && img.InBounds(x, y) && dir < 4 && k >= 1
  {
    var nx := NeighbourCoord(x, StepOffset(dir, k).0);
    var ny := NeighbourCoord(y, StepOffset(dir, k).1);
    img.InBounds(nx, ny) && MaxAbsDiff(img.Pixel(nx, ny), img.Pixel(x, y)) >= t
  }

  /** `(lo..=hi).any(p)`. */
  predicate AnyInRange(p: int -> bool, lo: int, hi: int)
    decreases hi - lo
  {
    lo <= hi && (p(lo) || AnyInRange(p, lo + 1, hi))
  }

  /** The hit test of one direction as the closure `any` calls with each
      step `k`. */
  function StepHits(img: Image, x: uint32, y: uint32, t: int32, dir: nat): int -> bool
    requires img.Valid() && img.InBounds(x, y) && dir < 4
  {
    k => 1 <= k <= I32Max && NeighbourHit(img, x, y, t, dir, k)
  }

  /** The `any` over `Directions[dir..]` x `1..=d` (the cartesian product of
      src/main.rs:126-130), directions outermost. */
  predicate AnyDirection(img: Image, x: uint32, y: uint32, t: int32, d: int32, dir: nat)
    requires img.Valid() && img.InBounds(x, y) && dir <= 4
    decreases 4 - dir
  {
    dir < 4 && (AnyInRange(StepHits(img, x, y, t, dir), 1, d) || AnyDirection(img, x, y, t, d, dir + 1))
  }

  /** `OnOffRule::is_on(img, x, y)`. */
  predicate IsOn(rule: OnOffRule, img: Image, x: uint32, y: uint32)
    requires img.Valid()
  {
    if !img.InBounds(x, y) then false
    else match rule
      case PxThreshold(t) => t <= ChannelSum(img.Pixel(x, y))
      case InvertedPxThreshold(t) => t >= ChannelSum(ToRgb(img.Pixel(x, y)))
      case Border(t, d) => AnyDirection(img, x, y, t, d, 0)
  }

  /** The border rule as a statement rather than a search: some direction and
      some step in `1..=d` reach a neighbour that differs by at least `t`. */
  ghost predicate BorderWitnessed(img: Image, x: uint32, y: uint32, t: int32, d: int32)
    requires img.Valid() && img.InBounds(x, y)
  {
    exists dir: nat, k: int32 :: dir < 4 && 1 <= k <= d && NeighbourHit(img, x, y, t, dir, k)
  }

  /** A successful `any` names an element of the range that passes. */
  lemma {:induction false} AnyInRangeSound(p: int -> bool, lo: int, hi: int) returns (j: int)
    requires AnyInRange(p, lo, hi)
    ensures lo <= j <= hi && p(j)
    decreases hi - lo
  {
    if p(lo) {
      j := lo;
    } else {
      j := AnyInRangeSound(p, lo + 1, hi);
    }
  }

  /** `any` finds every element of the range that passes. */
  lemma {:induction false} AnyInRangeComplete(p: int -> bool, lo: int, hi: int, j: int)
    requires lo <= j <= hi && p(j)
    ensures AnyInRange(p, lo, hi)
    decreases j - lo
  {
    if j > lo {
      AnyInRangeComplete(p, lo + 1, hi, j);
    }
  }

  /** A successful search over the directions from `dir` on names the
      direction and the step that hit. */
  lemma {:induction false} AnyDirectionSound(img: Image, x: uint32, y: uint32, t: int32, d: int32, dir: nat)
    returns (e: nat, k: int32)
    requires img.Valid() && img.InBounds(x, y) && dir <= 4
    requires AnyDirection(img, x, y, t, d, dir)
    ensures dir <= e < 4 && 1 <= k <= d && NeighbourHit(img, x, y, t, e, k)
    decreases 4 - dir
  {
    if AnyInRange(StepHits(img, x, y, t, dir), 1, d) {
      e := dir;
      var j := AnyInRangeSound(StepHits(img, x, y, t, dir), 1, d);
      k := j;
    } else {
      e, k := AnyDirectionSound(img, x, y, t, d, dir + 1);
    }
  }

  /** The search over the directions from `dir` on finds every hit in them. */
  lemma {:induction false} AnyDirectionComplete(img: Image, x: uint32, y: uint32, t: int32, d: int32, dir: nat, e: nat, k: int32)
    requires img.Valid() && img.InBounds(x, y) && dir <= e < 4
    requires 1 <= k <= d && NeighbourHit(img, x, y, t, e, k)
    ensures AnyDirection(img, x, y, t, d, dir)
    decreases 4 - dir
  {
    if e == dir {
      assert StepHits(img, x, y, t, dir)(k);
      AnyInRangeComplete(StepHits(img, x, y, t, dir), 1, d, k);
    } else {
      AnyDirectionComplete(img, x, y, t, d, dir + 1, e, k);
    }
  }

  /** The border rule is on exactly when some neighbour within `distance`
      steps along one of the four directions differs by at least `threshold`. */
  lemma BorderOnIff(img: Image, x: uint32, y: uint32, t: int32, d: int32)
    requires img.Valid() && img.InBounds(x, y)
    ensures IsOn(Border(t, d), img, x, y) <==> BorderWitnessed(img, x, y, t, d)
  {
    if IsOn(Border(t, d), img, x, y) {
      var dir, k := AnyDirectionSound(img, x, y, t, d, 0);
    }
    if BorderWitnessed(img, x, y, t, d) {
      var dir: nat, k: int32 :| dir < 4 && 1 <= k <= d && NeighbourHit(img, x, y, t, dir, k);
      AnyDirectionComplete(img, x, y, t, d, 0, dir, k);
    }
  }

  /** Every rule is off outside the image. */
  lemma OffOutsideImage(rule: OnOffRule, img: Image, x: uint32, y: uint32)
    requires img.Valid() && !img.InBounds(x, y)
    ensures !IsOn(rule, img, x, y)
  {
  }

  /** Inside the image, the threshold rule is on exactly when the channel sum
      of the pixel reaches `t`, so a larger channel sum never turns it off. */
  lemma ThresholdOnIff(t: int32, img: Image, img': Image, x: uint32, y: uint32)
    requires img.Valid() && img'.Valid() && img.InBounds(x, y) && img'.InBounds(x, y)
    ensures IsOn(PxThreshold(t), img, x, y) <==> t <= ChannelSum(img.Pixel(x, y))
    ensures ChannelSum(img.Pixel(x, y)) <= ChannelSum(img'.Pixel(x, y)) ==>
              (IsOn(PxThreshold(t), img, x, y) ==> IsOn(PxThreshold(t), img', x, y))
  {
  }

  /** Raising every channel of a pixel never turns the threshold rule from
      on to off. */
  lemma ThresholdMonotone(t: int32, img: Image, img': Image, x: uint32, y: uint32)
    requires img.Valid() && img'.Valid() && img.InBounds(x, y) && img'.InBounds(x, y)
    requires forall c :: 0 <= c < Channels ==> img.Pixel(x, y)[c] <= img'.Pixel(x, y)[c]
    ensures IsOn(PxThreshold(t), img, x, y) ==> IsOn(PxThreshold(t), img', x, y)
  {
    ChannelSumMonotone(img.Pixel(x, y), img'.Pixel(x, y));
  }

  /** The inverted threshold rule reads red, green and blue only: it is on
      exactly when their sum is at most `t`, whatever the alpha channel holds. */
  lemma InvertedIgnoresAlpha(t: int32, img: Image, img': Image, x: uint32, y: uint32)
    requires img.Valid() && img'.Valid() && img.InBounds(x, y) && img'.InBounds(x, y)
    requires forall c :: 0 <= c < 3 ==> img.Pixel(x, y)[c] == img'.Pixel(x, y)[c]
    ensures IsOn(InvertedPxThreshold(t), img, x, y) <==>
            img.Pixel(x, y)[0] + img.Pixel(x, y)[1] + img.Pixel(x, y)[2] <= t
    ensures IsOn(InvertedPxThreshold(t), img, x, y) == IsOn(InvertedPxThreshold(t), img', x, y)
  {
    var rgb := ToRgb(img.Pixel(x, y));
    assert rgb == ToRgb(img'.Pixel(x, y));
    assert rgb[1..][1..][1..] == [];
    assert ChannelSum(rgb) == rgb[0] + ChannelSum(rgb[1..]);
    assert ChannelSum(rgb[1..]) == rgb[1] + ChannelSum(rgb[1..][1..]);
    assert ChannelSum(rgb[1..][1..]) == rgb[2] + ChannelSum(rgb[1..][1..][1..]);
  }

  /** A non-positive distance makes `1..=distance` empty: the border rule is
      never on. */
  lemma {:induction false} BorderNeedsDistance(t: int32, d: int32, img: Image, x: uint32, y: uint32)
    requires img.Valid() && d <= 0
    ensures !IsOn(Border(t, d), img, x, y)
  {
    if img.InBounds(x, y) {
      BorderOnIff(img, x, y, t, d);
    }
  }

  /** On an image whose pixels are all equal no neighbour differs: the border
      rule with a positive threshold is never on. */
  lemma BorderOffOnUniformImage(t: int32, d: int32, img: Image, x: uint32, y: uint32)
    requires img.Valid() && t >= 1
    requires forall y0, x0, y1, x1 :: img.InBounds(x0, y0) && img.InBounds(x1, y1) ==>
               img.pixels[y0][x0] == img.pixels[y1][x1]
    ensures !IsOn(Border(t, d), img, x, y)
  {
    if IsOn(Border(t, d), img, x, y) {
      var dir, k := AnyDirectionSound(img, x, y, t, d, 0);
      var nx := NeighbourCoord(x, StepOffset(dir, k).0);
      var ny := NeighbourCoord(y, StepOffset(dir, k).1);
      assert img.Pixel(nx, ny) == img.Pixel(x, y);
      MaxAbsDiffSelf(img.Pixel(x, y));
    }
  }

  /** The neighbour test with out-of-range coordinates skipped rather than
      clamped to 0: the reading of the border rule without the clamp of
      src/main.rs:131-132, used only to state what that clamp changes. */
  ghost predicate SkipHit(img: Image, x: uint32, y: uint32, t: int32, dir: nat, k: int)
    requires img.Valid() && img.InBounds(x, y) && dir < 4
  {
    var nx := x + StepOffset(dir, k).0;
    var ny := y + StepOffset(dir, k).1;
    img.InBounds(nx, ny) && MaxAbsDiff(img.Pixel(nx, ny), img.Pixel(x, y)) >= t
  }

  ghost predicate BorderSkipping(img: Image, x: uint32, y: uint32, t: int32, d: int32)
    requires img.Valid() && img.InBounds(x, y)
  {
    exists dir: nat, k: int :: dir < 4 && 1 <= k <= d && SkipHit(img, x, y, t, dir, k)
  }
}
