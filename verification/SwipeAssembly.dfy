/** Putting a swipe together: how far the finger moved between lines, and the image resampled at an even pace. */
module SwipeAssembly {
  import opened Bytes
  import opened MedianFilter
  import opened SwipeCapture

  const RESOLUTION := 10
  const MEDIAN_SIZE := 25
  const MAX_SEARCH := 30

  // ---------- offsets ----------

  /** The two sensor rows of lines i and j, 64 sums. */
  function Overlap(a: Line, b: Line): (s: seq<int>)
    ensures |s| == 64
  {
    seq(64, i requires 0 <= i < 64 => (a[56 + i] as int) + b[168 + i])
  }

  function Mismatch(lines: seq<Line>, i: nat, j: nat): nat
    requires i < |lines| && j < |lines|
  {
    Spread(Overlap(lines[i], lines[j]))
  }

  /** get_deviation2. */
  method GetDeviation2(row1: Line, row2: Line) returns (r: nat)
    ensures r == Spread(Overlap(row1, row2))
  {
    hide Sum, Squares;
    ghost var s := Overlap(row1, row2);
    var mean: int, res: int := 0, 0;
    NoTerms(0);
    for i := 0 to 64
      invariant mean == Sum(s[..i])
    {
      OneMoreTerm(s, i, 0);
      mean := mean + (row1[56 + i] + (row2[168 + i] as int));
    }
    assert s[..64] == s;
    mean := mean / 64;
    NoTerms(mean);
    for i := 0 to 64
      invariant res == Squares(s[..i], mean)
    {
      OneMoreTerm(s, i, mean);
      var d := (row1[56 + i] as int) + row2[168 + i] - mean;
      res := res + d * d;
    }
    return res / 64;
  }

  function LastRow(n: nat, i: nat): int { if i + MAX_SEARCH < n - 1 then i + MAX_SEARCH else n - 1 }

  /** The first of the best matches among the next lines, at most thirty away. */
  predicate IsBestOffset(lines: seq<Line>, i: nat, offset: int)
    requires i + 1 < |lines|
  {
    && 1 <= offset <= MAX_SEARCH && i + offset <= LastRow(|lines|, i)
    && (forall j :: i + 1 <= j <= LastRow(|lines|, i) ==> Mismatch(lines, i, i + offset) <= Mismatch(lines, i, j))
    && (forall j :: i + 1 <= j < i + offset ==> Mismatch(lines, i, i + offset) < Mismatch(lines, i, j))
  }

  method FindOffset(lines: seq<Line>, i: nat) returns (offset: int)
    requires i + 1 < |lines|
    ensures IsBestOffset(lines, i, offset)
  {
    hide Spread;
    var bestmatch, bestdiff := i, 0;
    var firstrow, lastrow := i + 1, if i + MAX_SEARCH < |lines| - 1 then i + MAX_SEARCH else |lines| - 1;
    var j := firstrow;
    while j <= lastrow
      invariant firstrow <= j <= lastrow + 1
      invariant j > firstrow ==> firstrow <= bestmatch < j && bestdiff == Mismatch(lines, i, bestmatch)
      invariant j > firstrow ==> forall m :: firstrow <= m < j ==> bestdiff <= Mismatch(lines, i, m)
      invariant j > firstrow ==> forall m :: firstrow <= m < bestmatch ==> bestdiff < Mismatch(lines, i, m)
    {
      var diff := GetDeviation2(lines[i], lines[j]);
      if j == firstrow || diff < bestdiff { bestdiff, bestmatch := diff, j; }
      j := j + 1;
    }
    return bestmatch - i;
  }

  /** Offsets before and after smoothing: the last one is left out of the median filter. */
  predicate Smoothed(raw: seq<int>, offs: seq<int>) {
    && |offs| == |raw|
    && (raw != [] ==> offs[|raw| - 1] == raw[|raw| - 1])
    && (raw != [] ==> IsMedianFiltered(raw[..|raw| - 1], offs[..|raw| - 1], MEDIAN_SIZE))
  }

  ghost predicate AreBestOffsets(lines: seq<Line>, raw: seq<int>) {
    |raw| == |lines| / 2 && forall k :: 0 <= k < |raw| ==> IsBestOffset(lines, 2 * k, raw[k])
  }

  /** Smoothing leaves every offset between one and thirty. */
  lemma OffsetsInRange(lines: seq<Line>, raw: seq<int>, offs: seq<int>)
    requires AreBestOffsets(lines, raw) && Smoothed(raw, offs)
    ensures forall k :: 0 <= k < |offs| ==> 1 <= offs[k] <= MAX_SEARCH
  {
    hide IsMedianAt;
    assert forall k :: 0 <= k < |raw| ==> IsBestOffset(lines, 2 * k, raw[k]);
    if raw != [] {
      var c := |raw| - 1;
      FilterKeepsBounds(raw[..c], offs[..c], MEDIAN_SIZE, 1, MAX_SEARCH);
      assert forall k :: 0 <= k < c ==> offs[k] == offs[..c][k];
    }
  }

  lemma BestOffsetIsUnique(lines: seq<Line>, i: nat, a: int, b: int)
    requires i + 1 < |lines| && IsBestOffset(lines, i, a) && IsBestOffset(lines, i, b)
    ensures a == b
  {
    assert Mismatch(lines, i, i + a) == Mismatch(lines, i, i + b);
  }

  /** The offsets are determined by the lines. */
  lemma OffsetsAreDetermined(lines: seq<Line>, raw: seq<int>, offs: seq<int>, raw': seq<int>, offs': seq<int>)
    requires AreBestOffsets(lines, raw) && Smoothed(raw, offs) && AreBestOffsets(lines, raw') && Smoothed(raw', offs')
    ensures raw == raw' && offs == offs'
  {
    hide IsMedianAt;
    forall k | 0 <= k < |raw| ensures raw[k] == raw'[k] {
      BestOffsetIsUnique(lines, 2 * k, raw[k], raw'[k]);
    }
    assert raw == raw';
    if raw != [] {
      var c := |raw| - 1;
      FilterIsDetermined(raw[..c], offs[..c], offs'[..c], MEDIAN_SIZE);
      assert offs == offs[..c] + [offs[c]] && offs' == offs'[..c] + [offs'[c]];
    }
  }

  /** The first half of assemble_lines. */
  method FindOffsets(lines: seq<Line>) returns (offsets: array<int>, ghost raw: seq<int>)
    ensures fresh(offsets) && AreBestOffsets(lines, raw) && Smoothed(raw, offsets[..])
  {
    hide IsBestOffset, IsMedianFiltered;
    offsets := new int[|lines| / 2];
    var i := 0;
    while i + 1 < |lines|
      invariant i % 2 == 0 && i / 2 <= offsets.Length && i <= |lines|
      invariant forall k :: 0 <= k < i / 2 ==> IsBestOffset(lines, 2 * k, offsets[k])
    {
      offsets[i / 2] := FindOffset(lines, i);
      i := i + 2;
    }
    raw := offsets[..];
    var offCount := |lines| / 2 - 1;
    if offCount > 0 {
      Filter(offsets, offCount, MEDIAN_SIZE);
      assert offsets[offCount..][0] == offsets[offCount];
    } else if offCount == 0 {
      NothingFiltered(raw[..0], offsets[..0]);
    }
    assert raw != [] ==> raw[..|raw| - 1] == raw[..offCount] && offsets[..][..offCount] == offsets[..offCount];
  }

  lemma NothingFiltered(a: seq<int>, b: seq<int>)
    requires a == [] && b == []
    ensures IsMedianFiltered(a, b, MEDIAN_SIZE)
  {
  }

  // ---------- resampling ----------

  /** Where line i lies in the image. */
  function Position(offs: seq<int>, i: nat): real
    requires i <= 2 * |offs| + 1 && forall k :: 0 <= k < |offs| ==> offs[k] >= 1
  {
    if i == 0 then 0.0
    else if (i - 1) / 2 < |offs| then Position(offs, i - 1) + RESOLUTION as real / offs[(i - 1) / 2] as real
    else Position(offs, i - 1)
  }

  function Ceil(x: real): int { -((-x).Floor) }

  /** The pixel a fraction t of the way from p1 to p2, cut to a whole number. */
  function Blend(p1: byte, p2: byte, t: real): (p: byte)
    requires 0.0 <= t <= 1.0
    ensures (if p1 <= p2 then p1 else p2) <= p <= (if p1 <= p2 then p2 else p1)
  {
    Between(p1, p2, t);
    (p1 as real + t * (p2 as real - p1 as real)).Floor
  }

  lemma Between(p1: int, p2: int, t: real)
    requires 0.0 <= t <= 1.0
    ensures var v := (p1 as real + t * (p2 as real - p1 as real)).Floor;
            (if p1 <= p2 then p1 else p2) <= v <= (if p1 <= p2 then p2 else p1)
  {
    var d := p2 as real - p1 as real;
    if p1 <= p2 {
      Scaled(t, d);
      assert p1 as real <= p1 as real + t * d <= p2 as real;
    } else {
      var e := p1 as real - p2 as real;
      Scaled(t, e);
      Negated(t, d, e);
      assert t * d >= -e;
      assert t * d <= 0.0;
    }
  }

  lemma Negated(t: real, d: real, e: real)
    requires d == -e
    ensures t * d == -(t * e)
  {
  }

  lemma Scaled(t: real, d: real)
    requires 0.0 <= t <= 1.0 && d >= 0.0
    ensures 0.0 <= t * d <= d
  {
    assert (1.0 - t) * d >= 0.0;
  }

  function Fraction(y1: real, y2: real, yi: real): (t: real)
    requires y1 <= yi < y2
    ensures 0.0 <= t <= 1.0
  {
    FractionInRange(yi - y1, y2 - y1);
    (yi - y1) / (y2 - y1)
  }

  lemma FractionInRange(a: real, b: real)
    requires 0.0 <= a < b
    ensures 0.0 <= a / b <= 1.0
  {
    QuotientAtMost(a, b, 1.0);
    QuotientAtLeast(a, b, 0.0);
  }

  lemma QuotientAtMost(a: real, b: real, c: real)
    requires b > 0.0 && a <= c * b
    ensures a / b <= c
  {
    var q := a / b;
    assert q * b == a;
    if q > c { Positive(q - c, b); }
  }

  lemma QuotientAtLeast(a: real, b: real, c: real)
    requires b > 0.0 && a >= c * b
    ensures a / b >= c
  {
    var q := a / b;
    assert q * b == a;
    if q < c { Positive(c - q, b); }
  }

  lemma Positive(d: real, b: real)
    requires d > 0.0 && b > 0.0
    ensures d * b > 0.0
  {
  }

  /** Row r of the image, between two lines. */
  function Row(l1: Line, y1: real, l2: Line, y2: real, r: nat): (row: bytes)
    requires y1 <= r as real < y2
    ensures |row| == IMAGE_WIDTH
  {
    seq<byte>(IMAGE_WIDTH,
              x requires 0 <= x < IMAGE_WIDTH => Blend(l1[PIXELS + x], l2[PIXELS + x], Fraction(y1, y2, r as real)))
  }

  /** interpolate_lines, writing one row of the output. */
  method InterpolateLines(l1: Line, y1: real, l2: Line, y2: real, output: array<byte>, row: nat)
    requires y1 <= row as real < y2 && (row + 1) * IMAGE_WIDTH <= output.Length
    modifies output
    ensures output[row * IMAGE_WIDTH..(row + 1) * IMAGE_WIDTH] == Row(l1, y1, l2, y2, row)
    ensures forall k :: 0 <= k < output.Length && !(row * IMAGE_WIDTH <= k < (row + 1) * IMAGE_WIDTH) ==>
              output[k] == old(output[k])
  {
    hide Blend, Fraction;
    var i := 0;
    while i < IMAGE_WIDTH
      invariant 0 <= i <= IMAGE_WIDTH
      invariant output[row * IMAGE_WIDTH..row * IMAGE_WIDTH + i] == Row(l1, y1, l2, y2, row)[..i]
      invariant forall k :: 0 <= k < output.Length && !(row * IMAGE_WIDTH <= k < row * IMAGE_WIDTH + i) ==>
                  output[k] == old(output[k])
    {
      output[row * IMAGE_WIDTH + i] := Blend(l1[PIXELS + i], l2[PIXELS + i], Fraction(y1, y2, row as real));
      i := i + 1;
    }
  }

  predicate InSegment(offs: seq<int>, i: nat, r: nat)
    requires i + 1 <= 2 * |offs| + 1 && forall k :: 0 <= k < |offs| ==> offs[k] >= 1
  {
    Position(offs, i) <= r as real < Position(offs, i + 1)
  }

  lemma PositionGrows(offs: seq<int>, i: nat)
    requires i < 2 * |offs| && forall k :: 0 <= k < |offs| ==> 1 <= offs[k] <= MAX_SEARCH
    ensures Position(offs, i) + 1.0 / 3.0 <= Position(offs, i + 1) <= Position(offs, i) + 10.0
  {
    var o := offs[i / 2] as real;
    QuotientAtLeast(10.0, o, 1.0 / 3.0);
    QuotientAtMost(10.0, o, 10.0);
  }

  lemma {:induction false} PositionOrdered(offs: seq<int>, i: nat, j: nat)
    requires i < j <= 2 * |offs| && forall k :: 0 <= k < |offs| ==> 1 <= offs[k] <= MAX_SEARCH
    ensures Position(offs, i) + 1.0 / 3.0 <= Position(offs, j)
    decreases j
  {
    PositionGrows(offs, j - 1);
    if i < j - 1 { PositionOrdered(offs, i, j - 1); }
  }

  /** Every row of the image lies between exactly one pair of neighbouring lines. */
  lemma {:induction false} OneSegment(offs: seq<int>, n: nat, r: nat) returns (i: nat)
    requires n <= 2 * |offs| && forall k :: 0 <= k < |offs| ==> 1 <= offs[k] <= MAX_SEARCH
    requires r as real < Position(offs, n)
    ensures i < n && InSegment(offs, i, r)
    ensures forall j: nat :: j < n && InSegment(offs, j, r) ==> j == i
    decreases n
  {
    if Position(offs, n - 1) <= r as real {
      i := n - 1;
      forall j: nat | j < n && InSegment(offs, j, r) ensures j == i {
        if j + 1 < i { PositionOrdered(offs, j + 1, i); }
      }
    } else {
      i := OneSegment(offs, n - 1, r);
    }
  }

  function RowOf(output: seq<byte>, r: nat): bytes
    requires (r + 1) * IMAGE_WIDTH <= |output|
  {
    output[r * IMAGE_WIDTH..(r + 1) * IMAGE_WIDTH]
  }

  /** The rows below `height` are interpolated, each from the pair of lines around it; the rest is still zero. */
  ghost predicate Resampled(lines: seq<Line>, offs: seq<int>, output: seq<byte>, upTo: nat, height: nat) {
    && upTo + 1 <= |lines| && |offs| == |lines| / 2 && (forall k :: 0 <= k < |offs| ==> offs[k] >= 1)
    && height * IMAGE_WIDTH <= |output|
    && (forall i: nat, r: nat :: i < upTo && r < height && InSegment(offs, i, r) ==>
          RowOf(output, r) == Row(lines[i], Position(offs, i), lines[i + 1], Position(offs, i + 1), r))
    && (forall k :: height * IMAGE_WIDTH <= k < |output| ==> output[k] == 0)
  }

  /** The rows between one pair of lines; the loop ends early when the image is full. */
  method FillSegment(l1: Line, y: real, l2: Line, ynext: real, output: array<byte>, maxHeight: nat, from: nat)
    returns (lineInd: nat)
    requires output.Length == IMAGE_WIDTH * maxHeight && from <= maxHeight
    requires y <= from as real && y < ynext
    modifies output
    ensures from <= lineInd <= maxHeight
    ensures lineInd as real < ynext ==> lineInd == maxHeight
    ensures lineInd > from ==> (lineInd - 1) as real < ynext
    ensures forall r: nat :: from <= r < lineInd ==>
              y <= r as real < ynext && RowOf(output[..], r) == Row(l1, y, l2, ynext, r)
    ensures forall k :: 0 <= k < output.Length && !(from * IMAGE_WIDTH <= k < lineInd * IMAGE_WIDTH) ==>
              output[k] == old(output[k])
  {
    hide Row;
    lineInd := from;
    while lineInd as real < ynext
      invariant from <= lineInd <= maxHeight
      invariant lineInd > from ==> (lineInd - 1) as real < ynext
      invariant forall r: nat :: from <= r < lineInd ==>
                  y <= r as real < ynext && RowOf(output[..], r) == Row(l1, y, l2, ynext, r)
      invariant forall k :: 0 <= k < output.Length && !(from * IMAGE_WIDTH <= k < lineInd * IMAGE_WIDTH) ==>
                  output[k] == old(output[k])
      decreases maxHeight - lineInd
    {
      if lineInd > maxHeight - 1 { return; }
      ghost var before := output[..];
      InterpolateLines(l1, y, l2, ynext, output, lineInd);
      forall r: nat | from <= r < lineInd ensures RowOf(output[..], r) == RowOf(before, r) {
      }
      lineInd := lineInd + 1;
    }
  }

  /** One pair of lines more. */
  lemma SegmentAdded(lines: seq<Line>, offs: seq<int>, before: seq<byte>, after: seq<byte>, i: nat, from: nat, to: nat)
    requires i + 1 < |lines| && Resampled(lines, offs, before, i, from) && |after| == |before|
    requires forall k :: 0 <= k < |offs| ==> 1 <= offs[k] <= MAX_SEARCH
    requires from <= to && to * IMAGE_WIDTH <= |after|
    requires from > 0 ==> (from - 1) as real < Position(offs, i)
    requires Position(offs, i) < Position(offs, i + 1)
    requires forall r: nat :: from <= r < to ==>
               InSegment(offs, i, r)
                 && RowOf(after, r) == Row(lines[i], Position(offs, i), lines[i + 1], Position(offs, i + 1), r)
    requires forall k :: 0 <= k < |after| && !(from * IMAGE_WIDTH <= k < to * IMAGE_WIDTH) ==> after[k] == before[k]
    ensures Resampled(lines, offs, after, i + 1, to)
  {
    hide Row, Position;
    forall j: nat, r: nat | j < i + 1 && r < to && InSegment(offs, j, r)
      ensures RowOf(after, r) == Row(lines[j], Position(offs, j), lines[j + 1], Position(offs, j + 1), r)
    {
      if r < from {
        assert RowOf(after, r) == RowOf(before, r);
      } else {
        SameSegment(offs, j, i, r);
      }
    }
  }

  lemma SameSegment(offs: seq<int>, j: nat, i: nat, r: nat)
    requires j <= i < 2 * |offs| && forall k :: 0 <= k < |offs| ==> 1 <= offs[k] <= MAX_SEARCH
    requires InSegment(offs, j, r) && InSegment(offs, i, r)
    ensures j == i
  {
    hide Position;
    if j + 1 < i { PositionOrdered(offs, j + 1, i); }
  }

  /** assemble_lines: for two lines or more the image has min(maxHeight, ceil of the whole length) rows, at least one
      if any fit, and each of them is interpolated from the pair of lines around it. */
  method AssembleLines(lines: seq<Line>, maxHeight: nat)
    returns (output: array<byte>, height: nat, ghost raw: seq<int>, ghost offs: seq<int>)
    ensures fresh(output) && output.Length == IMAGE_WIDTH * maxHeight
    ensures AreBestOffsets(lines, raw) && Smoothed(raw, offs)
            && forall k :: 0 <= k < |offs| ==> 1 <= offs[k] <= MAX_SEARCH
    ensures |lines| >= 1 ==>
              var whole := Ceil(Position(offs, |lines| - 1));
              && height == (if whole < maxHeight then whole else maxHeight)
              && Resampled(lines, offs, output[..], |lines| - 1, height)
    ensures |lines| >= 2 && maxHeight >= 1 ==> height >= 1
    ensures |lines| == 0 ==> height == 0
  {
    hide AreBestOffsets, Smoothed, Resampled, Row, Position;
    var offsets;
    offsets, raw := FindOffsets(lines);
    offs := offsets[..];
    OffsetsInRange(lines, raw, offs);
    output := new byte[IMAGE_WIDTH * maxHeight](_ => 0);
    OffsetCount(lines, raw, offs);
    var y, lineInd, i, full := 0.0, 0, 0, false;
    if |lines| == 0 { return output, 0, raw, offs; }
    NothingResampled(lines, offs, output[..]);
    while i < |lines| - 1 && !full
      invariant 0 <= i <= |lines| - 1 && lineInd <= maxHeight && fresh(output)
      invariant offsets[..] == offs
      invariant y == Position(offs, i) && Resampled(lines, offs, output[..], i, lineInd)
      invariant lineInd > 0 ==> (lineInd - 1) as real < y
      invariant if full then lineInd == maxHeight && lineInd as real < y else y <= lineInd as real
    {
      var offset := offsets[i / 2];
      assert offset == offs[i / 2];
      StepForward(offs, i);
      if offset > 0 {
        var ynext := y + RESOLUTION as real / offset as real;
        ghost var from, before := lineInd, output[..];
        lineInd := FillSegment(lines[i], y, lines[i + 1], ynext, output, maxHeight, lineInd);
        SegmentAdded(lines, offs, before, output[..], i, from, lineInd);
        full := lineInd as real < ynext;
        y := ynext;
      }
      i := i + 1;
    }
    height := lineInd;
    HeightIsWhole(lines, offs, output[..], i, height, maxHeight, full);
  }

  lemma OffsetCount(lines: seq<Line>, raw: seq<int>, offs: seq<int>)
    requires AreBestOffsets(lines, raw) && Smoothed(raw, offs)
    ensures |offs| == |lines| / 2
  {
  }

  lemma NothingResampled(lines: seq<Line>, offs: seq<int>, output: seq<byte>)
    requires lines != [] && |offs| == |lines| / 2 && (forall k :: 0 <= k < |offs| ==> offs[k] >= 1)
    requires forall k :: 0 <= k < |output| ==> output[k] == 0
    ensures Resampled(lines, offs, output, 0, 0) && Position(offs, 0) == 0.0
  {
  }

  lemma StepForward(offs: seq<int>, i: nat)
    requires i < 2 * |offs| && forall k :: 0 <= k < |offs| ==> 1 <= offs[k] <= MAX_SEARCH
    ensures Position(offs, i) < Position(offs, i + 1) == Position(offs, i) + RESOLUTION as real / offs[i / 2] as real
  {
    PositionGrows(offs, i);
  }

  lemma PositionAtLeast(offs: seq<int>, i: nat, j: nat)
    requires i <= j <= 2 * |offs| && forall k :: 0 <= k < |offs| ==> 1 <= offs[k] <= MAX_SEARCH
    ensures 0.0 <= Position(offs, i) <= Position(offs, j)
    ensures i > 0 ==> 0.0 < Position(offs, i)
  {
    if 0 < i { PositionOrdered(offs, 0, i); }
    if i < j { PositionOrdered(offs, i, j); }
  }

  /** At the end of the loop, full or not, no row below the height is left to a later pair of lines. */
  lemma HeightIsWhole(lines: seq<Line>, offs: seq<int>, output: seq<byte>, i: nat, height: nat,
                      maxHeight: nat, full: bool)
    requires i <= |lines| - 1 && (forall k :: 0 <= k < |offs| ==> 1 <= offs[k] <= MAX_SEARCH)
    requires Resampled(lines, offs, output, i, height) && height <= maxHeight && |offs| == |lines| / 2
    requires height > 0 ==> (height - 1) as real < Position(offs, i)
    requires if full then height == maxHeight && height as real < Position(offs, i)
             else i == |lines| - 1 && Position(offs, i) <= height as real
    ensures Resampled(lines, offs, output, |lines| - 1, height)
    ensures var whole := Ceil(Position(offs, |lines| - 1)); height == if whole < maxHeight then whole else maxHeight
    ensures |lines| >= 2 && maxHeight >= 1 ==> height >= 1
  {
    hide Position, Row;
    var n := |lines| - 1;
    PositionAtLeast(offs, i, n);
    PositionAtLeast(offs, n, n);
    forall j: nat, r: nat | j < n && r < height && InSegment(offs, j, r) ensures j < i {
      if i <= j { PositionAtLeast(offs, i, j); }
    }
  }

  // ---------- from the reads of the sensor to the image ----------

  /** vfs5011_capture_fingerprint_image, from the capture loop on: there is an image exactly when two lines or more
      were recorded, and then it has at least one row, so the code's own test for an empty image never fires. */
  method CaptureImage(bulk: seq<Read>) returns (image: array?<byte>, height: nat, ghost offs: seq<int>)
    ensures image != null <==> |Swipe(StreamOf(bulk))| >= 2
    ensures image != null ==>
              var lines := Swipe(StreamOf(bulk));
              && 1 <= height <= MAX_LINES_TOTAL && image.Length == IMAGE_WIDTH * MAX_LINES_TOTAL
              && (exists raw :: AreBestOffsets(lines, raw) && Smoothed(raw, offs))
              && Resampled(lines, offs, image[..], |lines| - 1, height)
  {
    hide Swipe, StreamOf, AreBestOffsets, Smoothed, Resampled, Position;
    offs := [];
    var recorded, count := Record(bulk);
    if count < 2 { return null, 0, []; }
    ghost var raw;
    image, height, raw, offs := AssembleLines(recorded[..count], MAX_LINES_TOTAL);
  }
}
