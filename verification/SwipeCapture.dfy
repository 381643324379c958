/** Recording a swipe from a stream of sensor lines. */
module SwipeCapture {
  import opened Bytes

  const LINE_SIZE := 240
  const IMAGE_WIDTH := 160
  const PIXELS := 8
  const MAX_LINES_TOTAL := 2000
  const MAX_LINES_READ := 100000
  const DEVIATION_THRESHOLD := 15 * 15
  const DIFFERENCE_THRESHOLD := 600
  const STOP_CHECK_LINES := 50

  // ---------- how lines are measured ----------

  function Sum(s: seq<int>): int { if s == [] then 0 else Sum(s[..|s| - 1]) + s[|s| - 1] }

  function Squares(s: seq<int>, about: int): nat {
    if s == [] then 0
    else
      var d := s[|s| - 1] - about;
      SquareIsNat(d);
      Squares(s[..|s| - 1], about) + d * d
  }

  lemma SquareIsNat(d: int)
    ensures d * d >= 0
  {
  }

  /** The mean square distance from the mean, in whole numbers. */
  function Spread(s: seq<int>): nat
    requires s != []
  {
    Squares(s, Sum(s) / |s|) / |s|
  }

  function Differences(a: bytes, b: bytes): seq<int>
    requires |a| == |b|
  {
    seq(|a|, i requires 0 <= i < |a| => (a[i] as int) - b[i])
  }

  /** The mean square difference of two lines. */
  function Distance(a: bytes, b: bytes): nat
    requires |a| == |b| > 0
  {
    Squares(Differences(a, b), 0) / |a|
  }

  type Line = l: bytes | |l| == LINE_SIZE witness seq(LINE_SIZE, _ => 0)

  function Image(l: Line): bytes { l[PIXELS..PIXELS + IMAGE_WIDTH] }

  predicate Blank(l: Line) { Spread(Image(l)) < DEVIATION_THRESHOLD }

  predicate Differ(a: Line, b: Line) { Distance(Image(a), Image(b)) >= DIFFERENCE_THRESHOLD }

  lemma OneMoreTerm(s: seq<int>, i: nat, about: int)
    requires i < |s|
    ensures Sum(s[..i + 1]) == Sum(s[..i]) + s[i]
    ensures Squares(s[..i + 1], about) == Squares(s[..i], about) + (s[i] - about) * (s[i] - about)
  {
    assert s[..i + 1][..i] == s[..i];
  }

  /** get_deviation. */
  method GetDeviation(buf: bytes) returns (r: nat)
    requires buf != []
    ensures r == Spread(buf)
  {
    hide Sum, Squares;
    var mean: int, res: int := 0, 0;
    ghost var s: seq<int> := buf;
    NoTerms(0);
    for i := 0 to |buf|
      invariant mean == Sum(s[..i])
    {
      OneMoreTerm(s, i, 0);
      mean := mean + buf[i];
    }
    assert s[..|s|] == s;
    mean := mean / |buf|;
    NoTerms(mean);
    for i := 0 to |buf|
      invariant res == Squares(s[..i], mean)
    {
      OneMoreTerm(s, i, mean);
      var d := (buf[i] as int) - mean;
      res := res + d * d;
    }
    return res / |buf|;
  }

  lemma NoTerms(about: int)
    ensures Sum([]) == 0 && Squares([], about) == 0
  {
  }

  /** get_diff_norm. */
  method GetDiffNorm(a: bytes, b: bytes) returns (r: nat)
    requires |a| == |b| > 0
    ensures r == Distance(a, b)
  {
    hide Squares;
    var res: int := 0;
    ghost var diffs := Differences(a, b);
    NoTerms(0);
    for i := 0 to |a|
      invariant res == Squares(diffs[..i], 0)
    {
      OneMoreTerm(diffs, i, 0);
      var d := (a[i] as int) - b[i];
      res := res + d * d;
    }
    assert diffs[..|a|] == diffs;
    return res / |a|;
  }

  // ---------- what is recorded of a row of lines, stated in stages ----------

  function Take(s: seq<Line>, n: nat): seq<Line> { if |s| <= n then s else s[..n] }

  /** The swipe starts at the first line that is not blank. */
  function SkipBlank(s: seq<Line>): seq<Line> {
    if s == [] then [] else if Blank(s[0]) then SkipBlank(s[1..]) else s
  }

  function TrailingBlanks(s: seq<Line>): nat {
    if s == [] || !Blank(s[|s| - 1]) then 0 else 1 + TrailingBlanks(s[..|s| - 1])
  }

  /** It ends before the fiftieth blank line in a row. */
  function UntilQuiet(s: seq<Line>): (r: seq<Line>)
    ensures r <= s
  {
    if s == [] then []
    else
      var front := s[..|s| - 1];
      if UntilQuiet(front) != front then UntilQuiet(front)
      else if TrailingBlanks(s) >= STOP_CHECK_LINES then front
      else s
  }

  /** A line is kept when it differs enough from the last one kept. */
  function Thin(s: seq<Line>): (r: seq<Line>) {
    if s == [] then []
    else
      var kept := Thin(s[..|s| - 1]);
      if kept == [] || Differ(kept[|kept| - 1], s[|s| - 1]) then kept + [s[|s| - 1]] else kept
  }

  /** The lines of the swipe that are looked at, */
  function Seen(stream: seq<Line>): seq<Line> { Take(UntilQuiet(SkipBlank(stream)), MAX_LINES_READ) }

  /** and those that are recorded. */
  function Swipe(stream: seq<Line>): seq<Line> { Take(Thin(Seen(stream)), MAX_LINES_TOTAL) }

  lemma {:induction false} SkipBlankSnoc(s: seq<Line>, l: Line)
    ensures SkipBlank(s + [l]) == if SkipBlank(s) != [] || !Blank(l) then SkipBlank(s) + [l] else []
  {
    if s == [] {
      assert [l][1..] == [];
    } else {
      SkipBlankSnoc(s[1..], l);
      assert (s + [l])[1..] == s[1..] + [l];
    }
  }

  lemma UntilQuietSnoc(s: seq<Line>, l: Line)
    ensures UntilQuiet(s + [l]) == if UntilQuiet(s) != s then UntilQuiet(s)
                                   else if TrailingBlanks(s + [l]) >= STOP_CHECK_LINES then s else s + [l]
    ensures TrailingBlanks(s + [l]) == if Blank(l) then 1 + TrailingBlanks(s) else 0
    ensures Thin(s + [l]) == if Thin(s) == [] || Differ(Thin(s)[|Thin(s)| - 1], l) then Thin(s) + [l] else Thin(s)
  {
    assert (s + [l])[..|s|] == s;
  }

  /** The swipe never reaches its fiftieth blank line in a row, */
  lemma {:induction false} QuietOnlyAtTheEnd(s: seq<Line>)
    ensures UntilQuiet(s) == s ==> TrailingBlanks(s) < STOP_CHECK_LINES
    ensures forall n :: 0 <= n <= |UntilQuiet(s)| ==> TrailingBlanks(UntilQuiet(s)[..n]) < STOP_CHECK_LINES
  {
    if s != [] {
      var front := s[..|s| - 1];
      QuietOnlyAtTheEnd(front);
      var q := UntilQuiet(s);
      if q == s {
        assert front == UntilQuiet(front);
        forall n | 0 <= n <= |q| ensures TrailingBlanks(q[..n]) < STOP_CHECK_LINES {
          if n < |q| { assert q[..n] == front[..n]; } else { assert q[..n] == s; }
        }
      }
    }
  }

  /** and if lines are left after it, the next one is that fiftieth. */
  lemma {:induction false} QuietEndsTheSwipe(s: seq<Line>)
    requires UntilQuiet(s) != s
    ensures |UntilQuiet(s)| < |s| && TrailingBlanks(s[..|UntilQuiet(s)| + 1]) >= STOP_CHECK_LINES
  {
    var front := s[..|s| - 1];
    if UntilQuiet(front) != front {
      QuietEndsTheSwipe(front);
      assert s[..|UntilQuiet(s)| + 1] == front[..|UntilQuiet(s)| + 1];
    } else {
      assert s[..|front| + 1] == s;
    }
  }

  // ---------- the recorder, line by line ----------

  datatype Recorder = Recorder(recorded: seq<Line>, captured: nat, empty: nat, finished: bool)

  const START := Recorder([], 0, 0, false)

  /** One pass of the loop over the lines of a chunk. */
  function Feed(r: Recorder, l: Line): Recorder {
    if r.finished || (Blank(l) && r.captured == 0) then r
    else
      var empty := if Blank(l) then r.empty + 1 else 0;
      if empty >= STOP_CHECK_LINES then r.(empty := empty, finished := true)
      else if r.captured + 1 > MAX_LINES_READ then r.(empty := empty, captured := r.captured + 1, finished := true)
      else if r.recorded == [] || Differ(r.recorded[|r.recorded| - 1], l) then
        if |r.recorded| >= MAX_LINES_TOTAL then r.(empty := empty, captured := r.captured + 1, finished := true)
        else Recorder(r.recorded + [l], r.captured + 1, empty, false)
      else r.(empty := empty, captured := r.captured + 1)
  }

  function FeedAll(r: Recorder, lines: seq<Line>): Recorder {
    if lines == [] then r else Feed(FeedAll(r, lines[..|lines| - 1]), lines[|lines| - 1])
  }

  lemma {:induction false} FeedAllAppend(r: Recorder, a: seq<Line>, b: seq<Line>)
    ensures FeedAll(r, a + b) == FeedAll(FeedAll(r, a), b)
  {
    if b == [] {
      assert a + b == a;
    } else {
      FeedAllAppend(r, a, b[..|b| - 1]);
      assert (a + b)[..|a + b| - 1] == a + b[..|b| - 1];
    }
  }

  /** A recorder that has taken in a stream and may go on. */
  predicate Following(r: Recorder, stream: seq<Line>) {
    var active := SkipBlank(stream);
    && !r.finished
    && UntilQuiet(active) == active && r.captured == |active| <= MAX_LINES_READ && r.empty == TrailingBlanks(active)
    && r.recorded == Thin(active) && |r.recorded| <= MAX_LINES_TOTAL
  }

  /** A stream after which nothing more is recorded, for one of the three reasons to stop. */
  predicate Over(stream: seq<Line>) {
    var active := SkipBlank(stream);
    UntilQuiet(active) != active || |active| > MAX_LINES_READ || |Thin(active)| > MAX_LINES_TOTAL
  }

  lemma {:induction false} ThinGrows(s: seq<Line>, n: nat)
    requires n <= |s|
    ensures Thin(s[..n]) <= Thin(s)
  {
    if n < |s| {
      ThinGrows(s[..|s| - 1], n);
      assert s[..|s| - 1][..n] == s[..n];
    } else {
      assert s[..n] == s;
    }
  }

  /** Once it is over, one more line changes nothing. */
  lemma StaysOver(stream: seq<Line>, l: Line)
    requires Over(stream)
    ensures Over(stream + [l]) && Swipe(stream + [l]) == Swipe(stream)
  {
    hide UntilQuiet, TrailingBlanks, Thin, SkipBlank;
    var active := SkipBlank(stream);
    SkipBlankSnoc(stream, l);
    if active == [] { NothingActive(); }
    UntilQuietSnoc(active, l);
    if UntilQuiet(active) == active {
      var seen, more := Seen(stream), Seen(stream + [l]);
      if |active| <= MAX_LINES_READ {
        assert UntilQuiet(active + [l]) == active || UntilQuiet(active + [l]) == active + [l];
        assert seen == active && (more == active || more == Take(active + [l], MAX_LINES_READ));
        assert more[..|active|] == active;
        ThinGrows(more, |active|);
      } else {
        assert more == seen;
      }
    }
  }

  lemma NothingActive()
    ensures UntilQuiet([]) == [] && Thin([]) == []
  {
  }

  /** One line more: the recorder follows the stages, or stops with them. */
  lemma FollowsOneLine(r: Recorder, stream: seq<Line>, l: Line)
    requires Following(r, stream)
    ensures var r' := Feed(r, l);
            if r'.finished then Over(stream + [l]) && r'.recorded == Swipe(stream + [l])
            else Following(r', stream + [l])
  {
    hide UntilQuiet, TrailingBlanks, Thin, SkipBlank, Blank, Differ;
    var active := SkipBlank(stream);
    SkipBlankSnoc(stream, l);
    if active == [] { NothingActive(); }
    UntilQuietSnoc(active, l);
    if r.captured + 1 > MAX_LINES_READ {
      assert (active + [l])[..MAX_LINES_READ] == active;
    }
  }

  /** The recorder computes the swipe, whatever the stream. */
  lemma {:induction false} RecorderIsSwipe(stream: seq<Line>)
    ensures var r := FeedAll(START, stream);
            && r.recorded == Swipe(stream)
            && if r.finished then Over(stream) else Following(r, stream)
  {
    hide UntilQuiet, TrailingBlanks, Thin, SkipBlank, Blank, Differ;
    if stream == [] {
      NothingCaptured();
    } else {
      var front, l := stream[..|stream| - 1], stream[|stream| - 1];
      RecorderIsSwipe(front);
      assert stream == front + [l];
      var r := FeedAll(START, front);
      if r.finished { StaysOver(front, l); } else { FollowsOneLine(r, front, l); }
    }
  }

  lemma NothingCaptured()
    ensures Following(START, []) && Swipe([]) == []
  {
  }

  // ---------- what the recorded lines are ----------

  /** `places` picks the recorded lines out of the stream, in order. */
  predicate Picks(stream: seq<Line>, places: seq<nat>, picked: seq<Line>) {
    && |places| == |picked|
    && (forall i :: 0 <= i < |places| ==> places[i] < |stream| && stream[places[i]] == picked[i])
    && (forall i, j :: 0 <= i < j < |places| ==> places[i] < places[j])
  }

  lemma {:induction false} ThinPicks(s: seq<Line>) returns (places: seq<nat>)
    ensures Picks(s, places, Thin(s))
    ensures s != [] ==> Thin(s) != [] && places[0] == 0
    ensures forall i :: 0 < i < |Thin(s)| ==> Differ(Thin(s)[i - 1], Thin(s)[i])
  {
    hide Differ, Thin, Picks;
    if s == [] {
      NothingActive();
      places := [];
      NothingPicked(s);
    } else {
      var front, last := s[..|s| - 1], s[|s| - 1];
      places := ThinPicks(front);
      UntilQuietSnoc(front, last);
      assert front + [last] == s;
      PicksMore(front, last, places, Thin(front));
      if |Thin(s)| > |Thin(front)| { places := places + [|front|]; }
    }
  }

  lemma NothingPicked(s: seq<Line>)
    ensures Picks(s, [], [])
  {
  }

  lemma PicksMore(front: seq<Line>, last: Line, places: seq<nat>, picked: seq<Line>)
    requires Picks(front, places, picked)
    ensures Picks(front + [last], places, picked) && Picks(front + [last], places + [|front|], picked + [last])
    ensures |places| == |picked| && (front == [] ==> places == [])
  {
    if places != [] { assert places[0] < |front|; }
  }

  lemma {:induction false} SkipBlankIsSuffix(s: seq<Line>) returns (from: nat)
    ensures from <= |s| && SkipBlank(s) == s[from..]
    ensures SkipBlank(s) != [] ==> !Blank(SkipBlank(s)[0])
    ensures forall i :: 0 <= i < from ==> Blank(s[i])
  {
    hide Blank;
    if s == [] || !Blank(s[0]) {
      from := 0;
    } else {
      from := SkipBlankIsSuffix(s[1..]);
      from := from + 1;
    }
  }

  /** The recorded lines are a subsequence of the stream of at most 2000 lines, start with its first line that is not
      blank, and every two neighbours differ by at least the threshold. */
  lemma SwipeIsThinSubsequence(stream: seq<Line>) returns (places: seq<nat>)
    ensures Picks(stream, places, Swipe(stream)) && |Swipe(stream)| <= MAX_LINES_TOTAL
    ensures Swipe(stream) == [] <==> forall i :: 0 <= i < |stream| ==> Blank(stream[i])
    ensures Swipe(stream) != [] ==> !Blank(Swipe(stream)[0]) && forall i :: 0 <= i < places[0] ==> Blank(stream[i])
    ensures forall i :: 0 < i < |Swipe(stream)| ==> Differ(Swipe(stream)[i - 1], Swipe(stream)[i])
  {
    hide Blank, Differ, Thin, SkipBlank;
    var from := SkipBlankIsSuffix(stream);
    var seen := Seen(stream);
    var inSeen := ThinPicks(seen);
    var n := |Swipe(stream)|;
    places := seq(n, i requires 0 <= i < n => from + inSeen[i]);
    FirstIsSeen(stream);
    assert forall i :: 0 <= i < |seen| ==> seen[i] == stream[from + i];
    if n > 0 { FirstPlace(seen, inSeen, Thin(seen)); }
  }

  lemma FirstPlace(s: seq<Line>, places: seq<nat>, picked: seq<Line>)
    requires Picks(s, places, picked) && picked != []
    ensures places[0] < |s|
  {
  }

  lemma FirstIsSeen(stream: seq<Line>)
    ensures SkipBlank(stream) != [] ==> Seen(stream) != [] && Seen(stream)[0] == SkipBlank(stream)[0]
    ensures SkipBlank(stream) == [] ==> Seen(stream) == []
  {
    var s := SkipBlank(stream);
    if s != [] { QuietNeedsFifty(s); }
  }

  lemma {:induction false} QuietNeedsFifty(s: seq<Line>)
    requires |s| >= 1
    ensures |UntilQuiet(s)| >= 1
  {
    if |s| > 1 {
      QuietNeedsFifty(s[..|s| - 1]);
    } else {
      assert s[..|s| - 1] == [];
      assert TrailingBlanks(s) <= 1;
    }
  }

  // ---------- the capture loop over bulk reads ----------

  /** A bulk read: some bytes, none when it timed out, or a failure that ends the capture. */
  datatype Read = Data(data: bytes) | Broken

  /** The whole lines of a read; what is left over is dropped. */
  function LinesIn(data: bytes): seq<Line> {
    seq(|data| / LINE_SIZE, i requires 0 <= i < |data| / LINE_SIZE => data[LINE_SIZE * i..LINE_SIZE * i + LINE_SIZE])
  }

  /** The lines that reach the recorder. */
  function StreamOf(bulk: seq<Read>): seq<Line> {
    if bulk == [] || bulk[0].Broken? then [] else LinesIn(bulk[0].data) + StreamOf(bulk[1..])
  }

  lemma {:induction false} FinishedStays(r: Recorder, lines: seq<Line>)
    requires r.finished
    ensures FeedAll(r, lines) == r
  {
    if lines != [] { FinishedStays(r, lines[..|lines| - 1]); }
  }

  lemma FeedOne(r: Recorder, fed: seq<Line>, l: Line)
    requires r == FeedAll(START, fed)
    ensures FeedAll(START, fed + [l]) == Feed(r, l)
  {
    assert (fed + [l])[..|fed|] == fed;
  }

  /** One line of the loop body, over the buffer of recorded lines. */
  method TakeLine(l: Line, recorded: array<Line>, count: nat, captured: nat, empty: nat)
    returns (count': nat, captured': nat, empty': nat, finished: bool)
    requires recorded.Length == MAX_LINES_TOTAL && count <= MAX_LINES_TOTAL
    modifies recorded
    ensures count' <= MAX_LINES_TOTAL
    ensures Recorder(recorded[..count'], captured', empty', finished)
            == Feed(Recorder(old(recorded[..count]), captured, empty, false), l)
  {
    hide Spread, Distance;
    count', captured', empty', finished := count, captured, empty, false;
    var deviation := GetDeviation(l[PIXELS..PIXELS + IMAGE_WIDTH]);
    if deviation < DEVIATION_THRESHOLD {
      if captured == 0 { return; }
      empty' := empty + 1;
    } else {
      empty' := 0;
    }
    if empty' >= STOP_CHECK_LINES { finished := true; return; }
    captured' := captured + 1;
    if captured' > MAX_LINES_READ { finished := true; return; }
    var differs := count == 0;
    if count > 0 {
      var diff := GetDiffNorm(recorded[count - 1][PIXELS..PIXELS + IMAGE_WIDTH], l[PIXELS..PIXELS + IMAGE_WIDTH]);
      differs := diff >= DIFFERENCE_THRESHOLD;
    }
    if differs {
      if count >= MAX_LINES_TOTAL { finished := true; return; }
      recorded[count] := l;
      count' := count + 1;
    }
  }

  /** The lines of one chunk, up to the one that finishes the capture. */
  method TakeChunk(lines: seq<Line>, recorded: array<Line>, count: nat, captured: nat, empty: nat, ghost fed: seq<Line>)
    returns (count': nat, captured': nat, empty': nat, finished: bool)
    requires recorded.Length == MAX_LINES_TOTAL && count <= MAX_LINES_TOTAL
    requires Recorder(recorded[..count], captured, empty, false) == FeedAll(START, fed)
    modifies recorded
    ensures count' <= MAX_LINES_TOTAL
    ensures Recorder(recorded[..count'], captured', empty', finished) == FeedAll(START, fed + lines)
  {
    hide Feed, FeedAll;
    count', captured', empty', finished := count, captured, empty, false;
    assert fed + lines[..0] == fed;
    var i := 0;
    while i < |lines| && !finished
      invariant 0 <= i <= |lines| && count' <= MAX_LINES_TOTAL
      invariant Recorder(recorded[..count'], captured', empty', finished) == FeedAll(START, fed + lines[..i])
    {
      ghost var r := Recorder(recorded[..count'], captured', empty', false);
      FeedOne(r, fed + lines[..i], lines[i]);
      count', captured', empty', finished := TakeLine(lines[i], recorded, count', captured', empty');
      assert fed + lines[..i] + [lines[i]] == fed + lines[..i + 1];
      i := i + 1;
    }
    assert fed + lines == (fed + lines[..i]) + lines[i..];
    FeedAllAppend(START, fed + lines[..i], lines[i..]);
    if finished {
      FinishedStays(FeedAll(START, fed + lines[..i]), lines[i..]);
    } else {
      assert fed + lines[..i] == fed + lines;
    }
  }

  /** The capture loop records the swipe of the stream, however the reads cut it up. */
  method Record(bulk: seq<Read>) returns (recorded: array<Line>, count: nat)
    ensures fresh(recorded) && count <= MAX_LINES_TOTAL == recorded.Length
    ensures recorded[..count] == Swipe(StreamOf(bulk))
  {
    hide FeedAll, Swipe, LinesIn, Over, Following;
    recorded := new Line[MAX_LINES_TOTAL];
    count := 0;
    var captured, empty, finished, next := 0, 0, false, 0;
    ghost var fed: seq<Line> := [];
    NothingFed(recorded[..0], bulk);
    while !finished && next < |bulk|
      invariant 0 <= next <= |bulk| && count <= MAX_LINES_TOTAL && fresh(recorded)
      invariant Recorder(recorded[..count], captured, empty, finished) == FeedAll(START, fed)
      invariant StreamOf(bulk) == fed + StreamOf(bulk[next..])
      decreases |bulk| - next
    {
      var read := bulk[next];
      if read.Broken? { break; }
      var lines := LinesIn(read.data);
      ghost var rest := StreamOf(bulk[next + 1..]);
      assert bulk[next..][1..] == bulk[next + 1..];
      count, captured, empty, finished := TakeChunk(lines, recorded, count, captured, empty, fed);
      assert fed + (lines + rest) == (fed + lines) + rest;
      fed := fed + lines;
      next := next + 1;
    }
    ghost var rest := StreamOf(bulk[next..]);
    FeedAllAppend(START, fed, rest);
    if finished { FinishedStays(FeedAll(START, fed), rest); } else { assert fed + rest == fed; }
    RecorderIsSwipe(fed + rest);
  }

  lemma NothingFed(none: seq<Line>, bulk: seq<Read>)
    requires none == []
    ensures Recorder(none, 0, 0, false) == FeedAll(START, []) && bulk[0..] == bulk
    ensures StreamOf(bulk) == [] + StreamOf(bulk)
  {
  }

  // ---------- cutting the stream into reads ----------

  predicate WholeLines(bulk: seq<Read>) { forall r :: r in bulk ==> r.Data? && |r.data| % LINE_SIZE == 0 }

  function Joined(bulk: seq<Read>): bytes
    requires WholeLines(bulk)
  {
    if bulk == [] then [] else bulk[0].data + Joined(bulk[1..])
  }

  lemma LinesInAppend(a: bytes, b: bytes)
    requires |a| % LINE_SIZE == 0
    ensures LinesIn(a + b) == LinesIn(a) + LinesIn(b)
  {
    var n := |a| / LINE_SIZE;
    assert |a + b| / LINE_SIZE == n + |b| / LINE_SIZE;
    forall i | 0 <= i < |LinesIn(a + b)| ensures LinesIn(a + b)[i] == (LinesIn(a) + LinesIn(b))[i] {
      if i >= n {
        assert (a + b)[LINE_SIZE * i..LINE_SIZE * i + LINE_SIZE]
               == b[LINE_SIZE * (i - n)..LINE_SIZE * (i - n) + LINE_SIZE];
      } else {
        assert (a + b)[LINE_SIZE * i..LINE_SIZE * i + LINE_SIZE] == a[LINE_SIZE * i..LINE_SIZE * i + LINE_SIZE];
      }
    }
  }

  lemma {:induction false} StreamOfJoined(bulk: seq<Read>)
    requires WholeLines(bulk)
    ensures StreamOf(bulk) == LinesIn(Joined(bulk))
  {
    hide LinesIn;
    if bulk == [] {
      NoLines();
    } else {
      StreamOfJoined(bulk[1..]);
      LinesInAppend(bulk[0].data, Joined(bulk[1..]));
    }
  }

  lemma NoLines()
    ensures LinesIn([]) == []
  {
  }

  /** Two ways of cutting the same bytes into reads of whole lines record the same swipe. */
  lemma ChunkingDoesNotMatter(a: seq<Read>, b: seq<Read>)
    requires WholeLines(a) && WholeLines(b) && Joined(a) == Joined(b)
    ensures Swipe(StreamOf(a)) == Swipe(StreamOf(b))
  {
    StreamOfJoined(a);
    StreamOfJoined(b);
  }
}
