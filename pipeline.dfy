/** The rendering stage of `main` (src/main.rs:214-242): the rule is applied
    to every pixel to build a boolean matrix, and the matrix is read back in
    2 x 4 cells, each cell becoming one braille character of the output. */
module Pipeline {
  import opened Numeric
  import opened Results
  import opened Images
  import opened Rules
  import opened Braille

  /** A matrix with one entry per pixel, `mat[y][x]` for column `x` of row `y`. */
  predicate MatrixShaped(img: Image, mat: seq<seq<bool>>)
  {
    |mat| == img.height && forall y :: 0 <= y < |mat| ==> |mat[y]| == img.width
  }

  /** `mat` (src/main.rs:218-225): `is_on` of the rule at every pixel, rows
      outermost. */
  function BuildMatrix(rule: OnOffRule, img: Image): (mat: seq<seq<bool>>)
    requires img.Valid()
    ensures MatrixShaped(img, mat)
    ensures forall y, x :: 0 <= y < img.height && 0 <= x < img.width ==> mat[y][x] == IsOn(rule, img, x, y)
  {
    seq(img.height, y requires 0 <= y < img.height =>
      seq(img.width, x requires 0 <= x < img.width => IsOn(rule, img, x, y)))
  }

  /** The closure handed to `region_braille` (src/main.rs:229-235): the
      matrix entry at `(row, column)`, or `None` outside the image. */
  function MatrixSampler(img: Image, mat: seq<seq<bool>>): Sampler
    requires MatrixShaped(img, mat)
  {
    (row: nat, col: nat) => if img.InBounds(col, row) then Some(mat[row][col]) else None
  }

  /** Cells `(cx, cy)` with `cx <= width / 2` and `cy <= height / 4` sample
      only rows and columns that fit in `u32`. */
  lemma CellInU32(width: nat, height: nat, cx: nat, cy: nat)
    requires width <= U32Max && height <= U32Max
    requires cx <= width / 2 && cy <= height / 4
    ensures cy * 4 + 3 <= U32Max && cx * 2 + 1 <= U32Max
  {
  }

  /** The code point `region_braille` returns for cell `(cx, cy)` of the
      matrix `mat`. */
  function CellCode(img: Image, mat: seq<seq<bool>>, cx: nat, cy: nat): nat
    requires img.Valid() && MatrixShaped(img, mat)
    requires cx <= img.width / 2 && cy <= img.height / 4
  {
    CellInU32(img.width, img.height, cx, cy);
    RegionBraille(cx, cy, MatrixSampler(img, mat))
  }

  /** The two loops of src/main.rs:227-242 over an image of `width` x
      `height` pixels, with `f` the closure the inner loop hands to
      `region_braille`: one line per cell row `0..=height/4`, one character
      per cell column `0..=width/2`, each the cell's code point, whose
      `from_u32(..).unwrap()` never fails. Each line is what one `println!`
      ends. */
  method Render(width: nat, height: nat, f: Sampler) returns (lines: seq<string>)
    requires width <= U32Max && height <= U32Max
    ensures |lines| == height / 4 + 1
    ensures forall cy :: 0 <= cy < |lines| ==> |lines[cy]| == width / 2 + 1
    ensures forall cy, cx :: 0 <= cy < |lines| && 0 <= cx < |lines[cy]| ==>
              cy * 4 + 3 <= U32Max && cx * 2 + 1 <= U32Max &&
              lines[cy][cx] as int == RegionBraille(cx, cy, f)
  {
    lines := [];
    var cy := 0;
    while cy <= height / 4
      invariant cy <= height / 4 + 1
      invariant |lines| == cy
      invariant forall y :: 0 <= y < cy ==> |lines[y]| == width / 2 + 1
      invariant forall y, x :: 0 <= y < cy && 0 <= x < |lines[y]| ==>
                  y * 4 + 3 <= U32Max && x * 2 + 1 <= U32Max &&
                  lines[y][x] as int == RegionBraille(x, y, f)
    {
      var line := [];
      var cx := 0;
      while cx <= width / 2
        invariant cx <= width / 2 + 1
        invariant |line| == cx
        invariant forall x :: 0 <= x < cx ==> x * 2 + 1 <= U32Max && line[x] as int == RegionBraille(x, cy, f)
      {
        CellInU32(width, height, cx, cy);
        RegionBrailleRange(cx, cy, f);
        var v := RegionBraille(cx, cy, f);
        BrailleIsChar(v);
        var chr := CharFromU32(v);
        line := line + [chr.value];
        cx := cx + 1;
      }
      lines := lines + [line];
      cy := cy + 1;
    }
  }

  /** A matrix holding the rule's verdict at every pixel, as `BuildMatrix`
      builds it. */
  ghost predicate RuleMatrix(rule: OnOffRule, img: Image, mat: seq<seq<bool>>)
    requires img.Valid()
  {
    MatrixShaped(img, mat) &&
    forall y, x :: 0 <= y < img.height && 0 <= x < img.width ==> mat[y][x] == IsOn(rule, img, x, y)
  }

  /** Dot `i` of cell `(cx, cy)` is raised exactly when the rule is on at the
      pixel that dot stands for; a dot past the edge of the image stays down. */
  lemma CellDotIsRule(rule: OnOffRule, img: Image, mat: seq<seq<bool>>, cx: nat, cy: nat, i: nat)
    requires img.Valid() && RuleMatrix(rule, img, mat)
    requires cx <= img.width / 2 && cy <= img.height / 4 && i < 8
    ensures cx * 2 + DotOffsets[i].1 <= U32Max && cy * 4 + DotOffsets[i].0 <= U32Max
    ensures TestBit(CellCode(img, mat, cx, cy) - Off0, i) <==>
            IsOn(rule, img, cx * 2 + DotOffsets[i].1, cy * 4 + DotOffsets[i].0)
  {
    CellDot(img, mat, cx, cy, i);
    var row, col := cy * 4 + DotOffsets[i].0, cx * 2 + DotOffsets[i].1;
    if !img.InBounds(col, row) {
      OffOutsideImage(rule, img, col, row);
    }
  }

  /** Dot `i` of cell `(cx, cy)` of any matrix is its entry at the pixel the
      dot stands for, and down past the edge of the image. */
  lemma CellDot(img: Image, mat: seq<seq<bool>>, cx: nat, cy: nat, i: nat)
    requires img.Valid() && MatrixShaped(img, mat)
    requires cx <= img.width / 2 && cy <= img.height / 4 && i < 8
    ensures cx * 2 + DotOffsets[i].1 <= U32Max && cy * 4 + DotOffsets[i].0 <= U32Max
    ensures TestBit(CellCode(img, mat, cx, cy) - Off0, i) <==>
            img.InBounds(cx * 2 + DotOffsets[i].1, cy * 4 + DotOffsets[i].0) &&
            mat[cy * 4 + DotOffsets[i].0][cx * 2 + DotOffsets[i].1]
  {
    CellInU32(img.width, img.height, cx, cy);
    RegionBrailleBit(cx, cy, MatrixSampler(img, mat), i);
  }

  /** A cell lying wholly past the right or bottom edge, which the inclusive
      ranges produce when the width is even or the height a multiple of 4, is
      the empty braille cell. */
  lemma CellPastEdgeBlank(img: Image, mat: seq<seq<bool>>, cx: nat, cy: nat)
    requires img.Valid() && MatrixShaped(img, mat)
    requires cx <= img.width / 2 && cy <= img.height / 4
    requires cx * 2 >= img.width || cy * 4 >= img.height
    ensures CellCode(img, mat, cx, cy) == Off0
  {
    CellInU32(img.width, img.height, cx, cy);
    RegionBrailleAllOff(cx, cy, MatrixSampler(img, mat));
  }

  /** The whole stage: build the matrix for `rule`, then render it. Every
      character is a braille character, and each of its dots reports the rule
      at one pixel. */
  method RenderImage(rule: OnOffRule, img: Image) returns (lines: seq<string>)
    requires img.Valid()
    ensures |lines| == img.height / 4 + 1
    ensures forall cy :: 0 <= cy < |lines| ==> |lines[cy]| == img.width / 2 + 1
    ensures forall cy, cx :: 0 <= cy < |lines| && 0 <= cx < |lines[cy]| ==>
              Off0 <= lines[cy][cx] as int <= AllOn
    ensures forall cy, cx, i :: 0 <= cy < |lines| && 0 <= cx < |lines[cy]| && 0 <= i < 8 ==>
              (TestBit(lines[cy][cx] as int - Off0, i) <==>
               IsOn(rule, img, cx * 2 + DotOffsets[i].1, cy * 4 + DotOffsets[i].0))
  {
    var mat := BuildMatrix(rule, img);
    lines := Render(img.width, img.height, MatrixSampler(img, mat));
    RenderedDots(rule, img, lines);
  }

  /** Lines whose characters are the cell codes of the rule's matrix hold
      braille characters that report the rule at every dot. */
  lemma RenderedDots(rule: OnOffRule, img: Image, lines: seq<string>)
    requires img.Valid()
    requires |lines| == img.height / 4 + 1
    requires forall cy :: 0 <= cy < |lines| ==> |lines[cy]| == img.width / 2 + 1
    requires forall cy, cx :: 0 <= cy < |lines| && 0 <= cx < |lines[cy]| ==>
               cy * 4 + 3 <= U32Max && cx * 2 + 1 <= U32Max &&
               lines[cy][cx] as int == RegionBraille(cx, cy, MatrixSampler(img, BuildMatrix(rule, img)))
    ensures forall cy, cx :: 0 <= cy < |lines| && 0 <= cx < |lines[cy]| ==>
              Off0 <= lines[cy][cx] as int <= AllOn
    ensures forall cy, cx, i :: 0 <= cy < |lines| && 0 <= cx < |lines[cy]| && 0 <= i < 8 ==>
              (Off0 <= lines[cy][cx] as int &&
               (TestBit(lines[cy][cx] as int - Off0, i) <==>
                IsOn(rule, img, cx * 2 + DotOffsets[i].1, cy * 4 + DotOffsets[i].0)))
  {
    var mat := BuildMatrix(rule, img);
    var f := MatrixSampler(img, mat);
    forall cy, cx | 0 <= cy < |lines| && 0 <= cx < |lines[cy]|
      ensures Off0 <= lines[cy][cx] as int <= AllOn
    {
      RegionBrailleRange(cx, cy, f);
    }
    forall cy, cx, i | 0 <= cy < |lines| && 0 <= cx < |lines[cy]| && 0 <= i < 8
      ensures Off0 <= lines[cy][cx] as int
      ensures TestBit(lines[cy][cx] as int - Off0, i) <==>
              IsOn(rule, img, cx * 2 + DotOffsets[i].1, cy * 4 + DotOffsets[i].0)
    {
      CellDotIsRule(rule, img, mat, cx, cy, i);
    }
  }

  /** The image `width` x `height` with every pixel `p`. */
  function Uniform(width: nat, height: nat, p: seq<uint8>): (img: Image)
    requires |p| == Channels && width <= U32Max && height <= U32Max
    ensures img.Valid() && img.width == width && img.height == height
    ensures forall y, x :: img.InBounds(x, y) ==> img.Pixel(x, y) == p
  {
    Image(width, height, seq(height, _ => seq(width, _ => p)))
  }

  /** The cells of a 2 x 4 image under `Threshold(0)`, which every pixel
      meets: the full cell at the origin and blank cells beside and below it. */
  lemma TwoByFourCells(p: seq<uint8>)
    requires |p| == Channels
    ensures var img := Uniform(2, 4, p);
            var mat := BuildMatrix(PxThreshold(0), img);
            && CellCode(img, mat, 0, 0) == AllOn
            && CellCode(img, mat, 1, 0) == Off0
            && CellCode(img, mat, 0, 1) == Off0
            && CellCode(img, mat, 1, 1) == Off0
  {
    var img := Uniform(2, 4, p);
    var mat := BuildMatrix(PxThreshold(0), img);
    forall i | 0 <= i < 8
      ensures MatrixSampler(img, mat)(DotOffsets[i].0, DotOffsets[i].1) == Some(true)
    {
      assert img.InBounds(DotOffsets[i].1, DotOffsets[i].0);
    }
    RegionBrailleAllOn(0, 0, MatrixSampler(img, mat));
    CellPastEdgeBlank(img, mat, 1, 0);
    CellPastEdgeBlank(img, mat, 0, 1);
    CellPastEdgeBlank(img, mat, 1, 1);
  }

  /** A 2 x 4 image under `Threshold(0)` renders as two lines of two
      characters: the full cell, then blank cells from the inclusive ranges,
      which reach one cell column and one cell row past the image. */
  method RenderTwoByFour(p: seq<uint8>) returns (img: Image, lines: seq<string>)
    requires |p| == Channels
    ensures img == Uniform(2, 4, p)
    ensures lines == [[0x28FF as char, 0x2800 as char], [0x2800 as char, 0x2800 as char]]
  {
    img := Uniform(2, 4, p);
    var mat := BuildMatrix(PxThreshold(0), img);
    lines := Render(img.width, img.height, MatrixSampler(img, mat));
    TwoByFourCells(p);
    assert |lines| == 2 && |lines[0]| == 2 && |lines[1]| == 2;
    TwoByTwoLines(lines);
  }

  /** Two lines of two characters whose code points are the full cell and
      then three empty cells. */
  lemma TwoByTwoLines(lines: seq<string>)
    requires |lines| == 2 && |lines[0]| == 2 && |lines[1]| == 2
    requires lines[0][0] as int == AllOn && lines[0][1] as int == Off0
    requires lines[1][0] as int == Off0 && lines[1][1] as int == Off0
    ensures lines == [[0x28FF as char, 0x2800 as char], [0x2800 as char, 0x2800 as char]]
  {
    assert lines[0] == [lines[0][0], lines[0][1]];
    assert lines[1] == [lines[1][0], lines[1][1]];
  }

  /** The one cell of a single pixel whose channels sum below 100 is empty
      under `Threshold(100)`. */
  lemma DarkPixelCell(p: seq<uint8>)
    requires |p| == Channels && ChannelSum(p) < 100
    ensures var img := Uniform(1, 1, p);
            CellCode(img, BuildMatrix(PxThreshold(100), img), 0, 0) == Off0
  {
    var img := Uniform(1, 1, p);
    var mat := BuildMatrix(PxThreshold(100), img);
    forall i | 0 <= i < 8
      ensures MatrixSampler(img, mat)(DotOffsets[i].0, DotOffsets[i].1) != Some(true)
    {
    }
    RegionBrailleAllOff(0, 0, MatrixSampler(img, mat));
  }

  /** A single pixel whose channels sum below 100 renders, under the default
      rule `Threshold(100)`, as one line holding the empty cell. */
  method RenderDarkPixel(p: seq<uint8>) returns (img: Image, lines: seq<string>)
    requires |p| == Channels && ChannelSum(p) < 100
    ensures img == Uniform(1, 1, p)
    ensures lines == [[0x2800 as char]]
  {
    img := Uniform(1, 1, p);
    var mat := BuildMatrix(PxThreshold(100), img);
    lines := Render(img.width, img.height, MatrixSampler(img, mat));
    DarkPixelCell(p);
    assert |lines| == 1 && |lines[0]| == 1;
    OneBlankLine(lines);
  }

  lemma OneBlankLine(lines: seq<string>)
    requires |lines| == 1 && |lines[0]| == 1 && lines[0][0] as int == Off0
    ensures lines == [[0x2800 as char]]
  {
    assert lines[0] == [lines[0][0]];
  }
}
