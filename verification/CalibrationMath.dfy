/** Byte arithmetic of a calibration: averaging the interleaved lines of a captured frame, and folding one more
    averaged frame into the running calibration data. */
module CalibrationMath {
  import opened Bytes

  const BYTES_PER_LINE := 0x78
  const LINES_PER_CALIBRATION_DATA := 112
  const ITERATIONS := 3
  const LINE_HEADER := 8

  // ---------- signed bytes ----------

  function Signed(b: byte): int { if b < 128 then b else b - 256 }

  function Unsigned(x: int): byte
    requires -128 <= x <= 127
  {
    if x >= 0 then x else x + 256
  }

  function Clip(x: int): (r: int)
    ensures -128 <= r <= 127
  {
    if x < -128 then -128 else if x > 127 then 127 else x
  }

  /** C's conversion of a quotient to int: toward zero. */
  function Truncated(a: int, b: nat): int
    requires b > 0
  {
    if a >= 0 then a / b else -(-a / b)
  }

  /** What a sample contributes to the calibration data. */
  function Weight(b: byte): int { Truncated((b - 0x80) * 10, 0x22) }

  function Scale(b: byte): byte { Unsigned(Clip(Weight(b))) }

  function Add(l: byte, r: byte): byte { Unsigned(Clip(Signed(l) + Signed(r))) }

  // ---------- average ----------

  function At(s: bytes, i: nat): byte { if i < |s| then s[i] else 0 }

  function ColumnSum(s: bytes, at: nat, stride: nat, n: nat): (r: nat)
    ensures r <= 255 * n
  {
    if n == 0 then 0 else ColumnSum(s, at, stride, n - 1) + At(s, at + (n - 1) * stride)
  }

  /** The lines that are averaged into one. */
  function Interleave(linesPerFrame: nat, lines: nat): nat
    requires lines > 0
  {
    linesPerFrame / lines
  }

  function Mean(sum: nat, n: nat): byte
    requires n > 0 && sum <= 255 * n
  {
    sum / n
  }

  /** Byte k of the averaged frame: the mean of one column over the lines of one group of the second frame. */
  function MeanAt(raw: bytes, linesPerFrame: nat, bytesPerLine: nat, inter: nat, k: nat): byte
    requires bytesPerLine > 0 && inter > 0
  {
    Mean(ColumnSum(raw, linesPerFrame * bytesPerLine + k / bytesPerLine * (inter * bytesPerLine) + k % bytesPerLine,
                   bytesPerLine, inter), inter)
  }

  predicate CanAverage(rawLen: nat, linesPerFrame: nat, bytesPerLine: nat, lines: nat, cap: nat) {
    && lines > 0 && bytesPerLine > 0
    && var inter := Interleave(linesPerFrame, lines);
       inter > 1 && 2 * (linesPerFrame * bytesPerLine) <= rawLen
       && linesPerFrame * bytesPerLine % (inter * bytesPerLine) == 0
       && linesPerFrame * bytesPerLine / (inter * bytesPerLine) * bytesPerLine <= cap
  }

  function AverageOf(raw: bytes, linesPerFrame: nat, bytesPerLine: nat, lines: nat): bytes
    requires bytesPerLine > 0 && lines > 0 && Interleave(linesPerFrame, lines) > 1
  {
    var inter := Interleave(linesPerFrame, lines);
    var groups := linesPerFrame * bytesPerLine / (inter * bytesPerLine);
    seq(groups * bytesPerLine, k requires 0 <= k => MeanAt(raw, linesPerFrame, bytesPerLine, inter, k))
  }

  /** A sample of a group lies in the second frame. */
  lemma SampleInFrame(frame: nat, bytesPerLine: nat, inter: nat, groups: nat, g: nat, sub: nat, col: nat)
    requires frame == groups * (inter * bytesPerLine) && g < groups && sub < inter && col < bytesPerLine
    ensures frame + g * (inter * bytesPerLine) + (sub * bytesPerLine + col) < 2 * frame
  {
    RowFits(sub, inter, bytesPerLine);
    RowFits(g, groups, inter * bytesPerLine);
  }

  /** Quotient and remainder are what they are by their equation alone. */
  lemma DivModUnique(k: nat, width: nat, q: nat, r: nat)
    requires k == q * width + r && r < width
    ensures k / width == q && k % width == r
  {
    var d := k / width - q;
    assert k == width * (k / width) + k % width;
    assert width * d == r - k % width by {
      assert width * d == width * (k / width) - width * q;
    }
    if d >= 1 {
      Grows(width, d);
    } else if d <= -1 {
      assert width * -d == -(width * d);
      Grows(width, -d);
    }
  }

  lemma Grows(width: nat, d: int)
    requires d >= 1
    ensures width * d >= width
  {
  }

  /** Row and column of the bytes of line i. */
  lemma RowAndColumn(i: nat, width: nat)
    requires width > 0
    ensures forall k :: i * width <= k < i * width + width ==> k / width == i && k % width == k - i * width
  {
    forall k | i * width <= k < i * width + width ensures k / width == i && k % width == k - i * width {
      DivModUnique(k, width, i, k - i * width);
    }
  }

  /** mmis_average: refused exactly when the frame does not fit or does not divide; else the mean of every column of
      every group of lines. */
  method Average(raw: bytes, linesPerFrame: nat, bytesPerLine: nat, lines: nat, out: array<byte>)
    returns (ok: bool, len: nat)
    requires bytesPerLine > 0
    modifies out
    ensures ok <==> CanAverage(|raw|, linesPerFrame, bytesPerLine, lines, out.Length)
    ensures ok ==> len <= out.Length && out[..len] == AverageOf(raw, linesPerFrame, bytesPerLine, lines)
  {
    hide MeanAt;
    var frameSize := linesPerFrame * bytesPerLine;
    if lines == 0 { return false, 0; }
    var inter := linesPerFrame / lines;
    if inter <= 1 { return false, 0; }
    if frameSize + frameSize > |raw| { return false, 0; }
    var groupSize := inter * bytesPerLine;
    if frameSize % groupSize != 0 { return false, 0; }
    var nGroups := frameSize / groupSize;
    assert frameSize == nGroups * groupSize;
    len := nGroups * bytesPerLine;
    if len > out.Length { return false, 0; }
    AverageGroups(raw, linesPerFrame, bytesPerLine, inter, nGroups, out);
    return true, len;
  }

  /** The outer loop, one group of lines after another. */
  method AverageGroups(raw: bytes, linesPerFrame: nat, bytesPerLine: nat, inter: nat, nGroups: nat, out: array<byte>)
    requires bytesPerLine > 0 && inter > 0
    requires linesPerFrame * bytesPerLine == nGroups * (inter * bytesPerLine)
             && 2 * (linesPerFrame * bytesPerLine) <= |raw|
    requires nGroups * bytesPerLine <= out.Length
    modifies out
    ensures forall k :: 0 <= k < nGroups * bytesPerLine ==> out[k] == MeanAt(raw, linesPerFrame, bytesPerLine, inter, k)
  {
    hide MeanAt;
    var g := 0;
    while g < nGroups
      invariant 0 <= g <= nGroups && g * bytesPerLine <= nGroups * bytesPerLine
      invariant forall k :: 0 <= k < g * bytesPerLine ==> out[k] == MeanAt(raw, linesPerFrame, bytesPerLine, inter, k)
    {
      RowFits(g, nGroups, bytesPerLine);
      AverageGroup(raw, linesPerFrame, bytesPerLine, inter, nGroups, g, out);
      g := g + 1;
      assert g * bytesPerLine == (g - 1) * bytesPerLine + bytesPerLine;
    }
  }

  lemma RowFits(g: nat, groups: nat, width: nat)
    requires g < groups
    ensures g * width + width <= groups * width
  {
    assert (g + 1) * width <= groups * width;
  }

  /** The columns of one group. */
  method AverageGroup(raw: bytes, linesPerFrame: nat, bytesPerLine: nat, inter: nat, nGroups: nat, g: nat,
                      out: array<byte>)
    requires bytesPerLine > 0 && inter > 0 && g < nGroups
    requires linesPerFrame * bytesPerLine == nGroups * (inter * bytesPerLine)
             && 2 * (linesPerFrame * bytesPerLine) <= |raw|
    requires g * bytesPerLine + bytesPerLine <= out.Length
    modifies out
    ensures forall k :: 0 <= k < g * bytesPerLine ==> out[k] == old(out[k])
    ensures forall k :: g * bytesPerLine <= k < g * bytesPerLine + bytesPerLine ==>
                          out[k] == MeanAt(raw, linesPerFrame, bytesPerLine, inter, k)
  {
    hide MeanAt;
    var base := g * bytesPerLine;
    var col := 0;
    while col < bytesPerLine
      invariant 0 <= col <= bytesPerLine
      invariant forall k :: 0 <= k < base ==> out[k] == old(out[k])
      invariant forall k :: base <= k < base + col ==> out[k] == MeanAt(raw, linesPerFrame, bytesPerLine, inter, k)
    {
      out[base + col] := ColumnMean(raw, linesPerFrame, bytesPerLine, inter, nGroups, g, col);
      col := col + 1;
    }
  }

  /** The mean of one column of one group. */
  method ColumnMean(raw: bytes, linesPerFrame: nat, bytesPerLine: nat, inter: nat, nGroups: nat, g: nat, col: nat)
    returns (mean: byte)
    requires bytesPerLine > 0 && inter > 0 && g < nGroups && col < bytesPerLine
    requires linesPerFrame * bytesPerLine == nGroups * (inter * bytesPerLine)
             && 2 * (linesPerFrame * bytesPerLine) <= |raw|
    ensures mean == MeanAt(raw, linesPerFrame, bytesPerLine, inter, g * bytesPerLine + col)
  {
    hide MeanAt, ColumnSum;
    var frameSize := linesPerFrame * bytesPerLine;
    var group := frameSize + g * (inter * bytesPerLine);
    var sum, sub := 0, 0;
    NoSamples(raw, group + col, bytesPerLine);
    while sub < inter
      invariant 0 <= sub <= inter
      invariant sum == ColumnSum(raw, group + col, bytesPerLine, sub)
    {
      SampleInFrame(frameSize, bytesPerLine, inter, nGroups, g, sub, col);
      var at := sub * bytesPerLine + col;
      OneMoreSample(raw, group + col, bytesPerLine, sub, group + at);
      sum := sum + raw[group + at];
      sub := sub + 1;
    }
    MeanOfColumn(raw, linesPerFrame, bytesPerLine, inter, g, col);
    mean := sum / inter;
  }

  lemma NoSamples(raw: bytes, at: nat, stride: nat)
    ensures ColumnSum(raw, at, stride, 0) == 0
  {
  }

  lemma OneMoreSample(raw: bytes, at: nat, stride: nat, sub: nat, index: nat)
    requires index == at + sub * stride && index < |raw|
    ensures ColumnSum(raw, at, stride, sub + 1) == ColumnSum(raw, at, stride, sub) + raw[index]
  {
    assert At(raw, index) == raw[index];
  }

  lemma MeanOfColumn(raw: bytes, linesPerFrame: nat, bytesPerLine: nat, inter: nat, g: nat, col: nat)
    requires col < bytesPerLine && inter > 0
    ensures MeanAt(raw, linesPerFrame, bytesPerLine, inter, g * bytesPerLine + col)
            == ColumnSum(raw, linesPerFrame * bytesPerLine + g * (inter * bytesPerLine) + col, bytesPerLine, inter)
               / inter
  {
    hide ColumnSum;
    DivModUnique(g * bytesPerLine + col, bytesPerLine, g, col);
  }

  // ---------- the running calibration data ----------

  /** One byte of the calibration data after one more averaged frame. */
  function UpdateAt(prev: bytes, cooked: bytes, bytesPerLine: nat, k: nat): byte
    requires bytesPerLine > 0 && k < |cooked| && (prev == [] || |prev| == |cooked|)
  {
    if k % bytesPerLine < LINE_HEADER then if prev == [] then cooked[k] else prev[k]
    else if prev == [] then Scale(cooked[k])
    else Add(prev[k], Scale(cooked[k]))
  }

  function Update(prev: bytes, cooked: bytes, bytesPerLine: nat): bytes
    requires bytesPerLine > 0 && (prev == [] || |prev| == |cooked|)
  {
    seq(|cooked|, k requires 0 <= k < |cooked| => UpdateAt(prev, cooked, bytesPerLine, k))
  }

  /** mmis_process_calibration_results: reads prev while it writes out, so the two must be different buffers. */
  method ProcessResults(cooked: array<byte>, cookedLen: nat, bytesPerLine: nat, prev: array<byte>, prevLen: nat,
                        out: array<byte>) returns (ok: bool, len: nat)
    requires cookedLen <= cooked.Length && prevLen <= prev.Length
    requires out != cooked && out != prev
    modifies out
    ensures ok <==> && bytesPerLine > 0 && cookedLen % bytesPerLine == 0 && cookedLen <= out.Length
                    && (prevLen == 0 || prevLen == cookedLen)
    ensures ok ==> len == cookedLen && out[..len] == Update(prev[..prevLen], cooked[..cookedLen], bytesPerLine)
  {
    hide UpdateAt;
    if bytesPerLine == 0 || cookedLen % bytesPerLine != 0 { return false, 0; }
    if cookedLen > out.Length { return false, 0; }
    var nLines := cookedLen / bytesPerLine;
    assert nLines * bytesPerLine == cookedLen;
    ScaleLines(cooked, cookedLen, bytesPerLine, nLines, out);
    if prevLen > 0 {
      if prevLen != cookedLen { return false, 0; }
      AddLines(prev, cooked, cookedLen, bytesPerLine, nLines, out);
    }
    return true, cookedLen;
  }

  /** The first loop of process_calibration_results. */
  method ScaleLines(cooked: array<byte>, cookedLen: nat, bytesPerLine: nat, nLines: nat, out: array<byte>)
    requires bytesPerLine > 0 && out != cooked && cookedLen <= cooked.Length && cookedLen <= out.Length
    requires nLines * bytesPerLine == cookedLen
    modifies out
    ensures forall k :: 0 <= k < cookedLen ==> out[k] == UpdateAt([], cooked[..cookedLen], bytesPerLine, k)
  {
    hide UpdateAt;
    var i := 0;
    while i < nLines
      invariant 0 <= i <= nLines && i * bytesPerLine <= cookedLen
      invariant forall k :: 0 <= k < i * bytesPerLine ==> out[k] == UpdateAt([], cooked[..cookedLen], bytesPerLine, k)
    {
      RowFits(i, nLines, bytesPerLine);
      RowAndColumn(i, bytesPerLine);
      ScaleLine(cooked, cookedLen, bytesPerLine, i * bytesPerLine, out);
      i := i + 1;
      assert i * bytesPerLine == (i - 1) * bytesPerLine + bytesPerLine;
    }
  }

  /** The second loop, on top of earlier calibration data. */
  method AddLines(prev: array<byte>, cooked: array<byte>, cookedLen: nat, bytesPerLine: nat, nLines: nat,
                  out: array<byte>)
    requires bytesPerLine > 0 && out != prev && out != cooked
    requires cookedLen <= cooked.Length && cookedLen <= out.Length && cookedLen <= prev.Length
    requires nLines * bytesPerLine == cookedLen
    requires forall k :: 0 <= k < cookedLen ==> out[k] == UpdateAt([], cooked[..cookedLen], bytesPerLine, k)
    modifies out
    ensures forall k :: 0 <= k < cookedLen ==>
              out[k] == UpdateAt(prev[..cookedLen], cooked[..cookedLen], bytesPerLine, k)
  {
    hide UpdateAt;
    var i := 0;
    while i < nLines
      invariant 0 <= i <= nLines && i * bytesPerLine <= cookedLen
      invariant forall k :: 0 <= k < i * bytesPerLine ==>
                              out[k] == UpdateAt(prev[..cookedLen], cooked[..cookedLen], bytesPerLine, k)
      invariant forall k :: i * bytesPerLine <= k < cookedLen ==>
                              out[k] == UpdateAt([], cooked[..cookedLen], bytesPerLine, k)
    {
      RowFits(i, nLines, bytesPerLine);
      RowAndColumn(i, bytesPerLine);
      AddLine(prev, cooked, cookedLen, bytesPerLine, i * bytesPerLine, out);
      i := i + 1;
      assert i * bytesPerLine == (i - 1) * bytesPerLine + bytesPerLine;
    }
  }

  /** One line, scaled from its ninth byte on. */
  method ScaleLine(cooked: array<byte>, cookedLen: nat, bytesPerLine: nat, base: nat, out: array<byte>)
    requires bytesPerLine > 0 && out != cooked && cookedLen <= cooked.Length && cookedLen <= out.Length
    requires base + bytesPerLine <= cookedLen
             && forall k :: base <= k < base + bytesPerLine ==> k % bytesPerLine == k - base
    modifies out
    ensures forall k :: 0 <= k < base ==> out[k] == old(out[k])
    ensures forall k :: base <= k < base + bytesPerLine ==>
                          out[k] == UpdateAt([], cooked[..cookedLen], bytesPerLine, k)
  {
    hide Scale;
    var header := if bytesPerLine < 8 then bytesPerLine else 8;
    forall k | base <= k < base + header { out[k] := cooked[k]; }
    var p := base + header;
    while p < base + bytesPerLine
      invariant base + header <= p <= base + bytesPerLine
      invariant forall k :: 0 <= k < base ==> out[k] == old(out[k])
      invariant forall k :: base <= k < p ==> out[k] == UpdateAt([], cooked[..cookedLen], bytesPerLine, k)
    {
      out[p] := Scale(cooked[p]);
      p := p + 1;
    }
  }

  /** One line, added to the line before; its header is the old one. */
  method AddLine(prev: array<byte>, cooked: array<byte>, cookedLen: nat, bytesPerLine: nat, base: nat, out: array<byte>)
    requires bytesPerLine > 0 && out != prev && out != cooked
    requires cookedLen <= cooked.Length && cookedLen <= out.Length && cookedLen <= prev.Length
    requires base + bytesPerLine <= cookedLen
             && forall k :: base <= k < base + bytesPerLine ==> k % bytesPerLine == k - base
    requires forall k :: base <= k < cookedLen ==> out[k] == UpdateAt([], cooked[..cookedLen], bytesPerLine, k)
    modifies out
    ensures forall k :: 0 <= k < out.Length && !(base <= k < base + bytesPerLine) ==> out[k] == old(out[k])
    ensures forall k :: base <= k < base + bytesPerLine ==>
                          out[k] == UpdateAt(prev[..cookedLen], cooked[..cookedLen], bytesPerLine, k)
  {
    hide Scale, Add;
    var header := if bytesPerLine < 8 then bytesPerLine else 8;
    forall k | base <= k < base + header { out[k] := prev[k]; }
    var p := base + header;
    while p < base + bytesPerLine
      invariant base + header <= p <= base + bytesPerLine
      invariant forall k :: 0 <= k < out.Length && !(base <= k < p) ==> out[k] == old(out[k])
      invariant forall k :: base <= k < p ==>
                  out[k] == UpdateAt(prev[..cookedLen], cooked[..cookedLen], bytesPerLine, k)
    {
      out[p] := Add(prev[p], out[p]);
      p := p + 1;
    }
  }

  // ---------- a whole calibration ----------

  predicate SameLength(frames: seq<bytes>) { forall i, j :: 0 <= i < j < |frames| ==> |frames[i]| == |frames[j]| }

  /** The calibration data after a row of averaged frames, starting from none. */
  function Accumulated(frames: seq<bytes>, bytesPerLine: nat): (data: bytes)
    requires bytesPerLine > 0 && SameLength(frames) && forall f :: f in frames ==> f != []
    ensures frames == [] ==> data == []
    ensures frames != [] ==> |data| == |frames[0]|
  {
    if frames == [] then []
    else
      var front := frames[..|frames| - 1];
      assert forall f :: f in front ==> f in frames;
      assert front != [] ==> |front[0]| == |frames[|frames| - 1]|;
      Update(Accumulated(front, bytesPerLine), frames[|frames| - 1], bytesPerLine)
  }

  function WeightSum(frames: seq<bytes>, k: nat): int
    requires forall f :: f in frames ==> k < |f|
  {
    if frames == [] then 0
    else
      var front := frames[..|frames| - 1];
      assert forall f :: f in front ==> f in frames;
      WeightSum(front, k) + Weight(frames[|frames| - 1][k])
  }

  /** A sample weighs at most 37 either way, so its clip never fires. */
  lemma WeightIsSmall(b: byte)
    ensures -37 <= Weight(b) <= 37
    ensures Signed(Scale(b)) == Weight(b)
  {
  }

  /** In a calibration of three iterations no addition saturates: every sample of the result is the exact sum of the
      weights of the averaged samples, and every line keeps the header of the first frame. */
  lemma {:induction false} NothingSaturates(frames: seq<bytes>, bytesPerLine: nat, k: nat)
    requires 1 <= |frames| <= ITERATIONS && bytesPerLine > 0 && SameLength(frames)
    requires forall f :: f in frames ==> k < |f|
    ensures -37 * |frames| <= WeightSum(frames, k) <= 37 * |frames|
    ensures var data := Accumulated(frames, bytesPerLine);
            k < |data|
            && if k % bytesPerLine < LINE_HEADER then data[k] == frames[0][k]
               else Signed(data[k]) == WeightSum(frames, k)
  {
    hide Weight, Scale;
    var front, last := frames[..|frames| - 1], frames[|frames| - 1];
    assert forall f :: f in front ==> f in frames;
    WeightIsSmall(last[k]);
    if |frames| > 1 {
      NothingSaturates(front, bytesPerLine, k);
      assert front[0] == frames[0];
    } else {
      assert front == [];
    }
  }

  /** Three is the most: a fourth iteration can lose samples to the clip. */
  lemma FourCanSaturate() returns (frames: seq<bytes>)
    ensures |frames| == ITERATIONS + 1 && SameLength(frames) && forall f :: f in frames ==> |f| == BYTES_PER_LINE
    ensures Signed(Accumulated(frames, BYTES_PER_LINE)[8]) != WeightSum(frames, 8)
  {
    var f: bytes := seq(BYTES_PER_LINE, _ => 255);
    var three := [f, f, f];
    frames := [f, f, f, f];
    assert frames[..3] == three && three[..2] == [f, f] && [f, f][..1] == [f] && [f][..0] == [];
    assert Weight(255) == 37;
    assert WeightSum([f], 8) == 37;
    assert WeightSum([f, f], 8) == 74;
    assert WeightSum(three, 8) == 111;
    NothingSaturates(three, BYTES_PER_LINE, 8);
    assert WeightSum(frames, 8) == 148;
  }
}
