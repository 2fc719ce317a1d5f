/** `ImageSize` and `ImageSize::from_str` (src/main.rs:14-47): the `--size`
    option, either `_` for the image's own size or `WxH`. */
module SizeParsing {
  import opened Numeric
  import opened Results
  import opened Strings
  import opened IntParsing

  datatype ImageSize = Default | Sized(width: uint32, height: uint32)

  datatype ImageSizeParseError = ParseIntError(kind: IntErrorKind) | UnknownSizeFormat(text: string)

  /** `ImageSize::from_str(s)`: `_` is the default size; otherwise the first
      two pieces of `s.split("x")` are parsed as `u32` width and height, width
      first, and any further pieces are ignored. Text without an `x` has no
      second piece and is an unknown format. */
  method ParseSize(s: string) returns (r: Result<ImageSize, ImageSizeParseError>)
    ensures s == "_" ==> r == Ok(Default)
    ensures s != "_" && 'x' !in s ==> r == Err(UnknownSizeFormat(s))
    ensures s != "_" && 'x' in s ==>
              |Split(s, 'x')| >= 2 &&
              var w := IntFromStr(Split(s, 'x')[0], U32Max);
              var h := IntFromStr(Split(s, 'x')[1], U32Max);
              r == if w.Err? then Err(ParseIntError(w.error))
                   else if h.Err? then Err(ParseIntError(h.error))
                   else Ok(Sized(w.value, h.value))
  {
    if s == "_" {
      return Ok(Default);
    }
    // it.next(): the piece before the first `x`
    var i := 0;
    while i < |s| && s[i] != 'x'
      invariant 0 <= i <= |s|
      invariant 'x' !in s[..i]
    {
      i := i + 1;
    }
    if i == |s| {
      assert s[..i] == s;
      return Err(UnknownSizeFormat(s));
    }
    var widthText := s[..i];
    // it.next(): the piece between the first `x` and the next one, or the end
    var j := i + 1;
    while j < |s| && s[j] != 'x'
      invariant i + 1 <= j <= |s|
      invariant 'x' !in s[i + 1..j]
    {
      j := j + 1;
    }
    var heightText := s[i + 1..j];
    SplitPieces(s, i, j);
    var w := IntFromStr(widthText, U32Max);
    if w.Err? {
      return Err(ParseIntError(w.error));
    }
    var h := IntFromStr(heightText, U32Max);
    if h.Err? {
      return Err(ParseIntError(h.error));
    }
    return Ok(Sized(w.value, h.value));
  }

  /** The positions the two scans stop at delimit the first two pieces of
      the split. */
  lemma SplitPieces(s: string, i: nat, j: nat)
    requires i < j <= |s| && s[i] == 'x' && 'x' !in s[..i] && 'x' !in s[i + 1..j]
    requires j < |s| ==> s[j] == 'x'
    ensures |Split(s, 'x')| >= 2
    ensures Split(s, 'x')[0] == s[..i] && Split(s, 'x')[1] == s[i + 1..j]
  {
    IndexOfIs(s, 'x', i);
    var rest := s[i + 1..];
    assert rest[..j - i - 1] == s[i + 1..j];
    IndexOfIs(rest, 'x', j - i - 1);
    assert Split(s, 'x') == [s[..i]] + Split(rest, 'x');
  }

  /** The text `W x H` followed by nothing or by a further `x` piece parses
      back to the size it was written from. */
  method ParseWrittenSize(width: uint32, height: uint32, tail: string) returns (s: string, r: Result<ImageSize, ImageSizeParseError>)
    requires tail == [] || tail[0] == 'x'
    ensures s == Decimal(width) + "x" + Decimal(height) + tail
    ensures r == Ok(Sized(width, height))
  {
    var w, h := Decimal(width), Decimal(height);
    s := w + "x" + h + tail;
    var i, j := |w|, |w| + 1 + |h|;
    assert s[..i] == w && s[i] == 'x' && s[i + 1..j] == h;
    assert 'x' !in w && 'x' !in h;
    SplitPieces(s, i, j);
    IntFromStrDecimal(width, U32Max);
    IntFromStrDecimal(height, U32Max);
    r := ParseSize(s);
  }
}
