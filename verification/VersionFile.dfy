/** VERSION.txt: writing it, reading it, and which of two versions is newer. */
module VersionFile {
  import opened Text

  const LINE_MAX := 127
  const VERSION_MAX := 31
  const BUILD_MAX := 31
  const BRANCH_MAX := 63

  datatype Info = Info(version: string, build: string, branch: string, critical: bool)

  const NO_INFO := Info("", "", "", false)

  // ---------- the file ----------

  /** What write_local_version_file writes. */
  function Printed(i: Info): string {
    "VERSION=" + i.version + "\n"
      + ("BUILD=" + i.build + "\n" + ("BRANCH=" + i.branch + "\n" + CriticalLine(i.critical)))
  }

  function CriticalLine(critical: bool): string { "CRITICAL=" + (if critical then "true" else "false") + "\n" + "" }

  datatype Parse = Parse(found: bool, info: Info)

  const NOTHING := Parse(false, NO_INFO)

  /** A carriage return at the end of a line is dropped, one only. */
  function WithoutReturn(line: string): string {
    if line != "" && line[|line| - 1] == '\r' then line[..|line| - 1] else line
  }

  /** What one line does to what has been read so far. */
  function Take(line: string, so: Parse): Parse {
    if "VERSION=" <= line then Parse(true, so.info.(version := Cut(line[8..], VERSION_MAX)))
    else if "BUILD=" <= line then so.(info := so.info.(build := Cut(line[6..], BUILD_MAX)))
    else if "BRANCH=" <= line then so.(info := so.info.(branch := Cut(line[7..], BRANCH_MAX)))
    else if "CRITICAL=" <= line then so.(info := so.info.(critical := "true" <= line[9..]))
    else so
  }

  function LineEnd(p: string): (n: nat)
    ensures n <= |p| && n <= LINE_MAX && (n < |p| && n < LINE_MAX ==> p[n] == '\n') && '\n' !in p[..n]
  {
    if IndexOf(p, '\n') <= LINE_MAX then IndexOf(p, '\n') else LINE_MAX
  }

  /** What is left after a line: a line feed right behind it goes with it. */
  function Rest(p: string): (r: string)
    ensures p != "" ==> |r| < |p|
  {
    var n := LineEnd(p);
    if n < |p| && p[n] == '\n' then p[n + 1..] else p[n..]
  }

  function ParsedFrom(p: string, so: Parse): Parse
    decreases |p|
  {
    if p == "" then so else ParsedFrom(Rest(p), Take(WithoutReturn(p[..LineEnd(p)]), so))
  }

  function Parsed(buf: string): Parse { ParsedFrom(CString(buf), NOTHING) }

  /** The copying of one line into its buffer. */
  method ReadLine(text: string, start: nat) returns (line: string, next: nat)
    requires start < |text|
    ensures start < next <= |text|
    ensures line == text[start..][..LineEnd(text[start..])] && text[next..] == Rest(text[start..])
  {
    hide IndexOf;
    line, next := "", start;
    while next < |text| && text[next] != '\n' && |line| < LINE_MAX
      invariant start <= next <= |text| && line == text[start..next] && |line| <= LINE_MAX && '\n' !in line
    {
      line := line + [text[next]];
      next := next + 1;
    }
    assert text[start..][..next - start] == line;
    LineIs(text[start..], next - start);
    if next < |text| && text[next] == '\n' { next := next + 1; }
  }

  /** parse_version_file, over a buffer with a NUL at its end. */
  method ParseVersionFile(buf: string) returns (found: bool, info: Info)
    ensures Parse(found, info) == Parsed(buf)
  {
    hide Take, LineEnd, Rest;
    var text := CString(buf);
    var p := 0;
    found, info := false, NO_INFO;
    assert text[0..] == text;
    while p < |text|
      invariant 0 <= p <= |text|
      invariant ParsedFrom(text[p..], Parse(found, info)) == ParsedFrom(text, NOTHING)
    {
      var line, next := ReadLine(text, p);
      var so := Take(WithoutReturn(line), Parse(found, info));
      found, info := so.found, so.info;
      p := next;
    }
    assert text[p..] == "";
  }

  lemma LineIs(p: string, n: nat)
    requires n <= |p| && n <= LINE_MAX && '\n' !in p[..n] && (n < |p| && n < LINE_MAX ==> p[n] == '\n')
    ensures LineEnd(p) == n
  {
    assert forall k :: 0 <= k < n ==> p[k] == p[..n][k];
    var i := IndexOf(p, '\n');
    assert i >= n;
    if n < |p| && n < LINE_MAX { IndexOfIs(p, '\n', n); }
  }

  // ---------- round trip ----------

  /** A field that can stand in a line: short enough, without line feed, NUL or a carriage return at its end. */
  predicate Writable(field: string, most: nat) {
    |field| <= most && Plain(field) && WithoutReturn(field) == field
  }

  predicate Plain(field: string) { forall i :: 0 <= i < |field| ==> field[i] != '\n' && field[i] != '\0' }

  predicate AllWritable(i: Info) {
    Writable(i.version, VERSION_MAX) && Writable(i.build, BUILD_MAX) && Writable(i.branch, BRANCH_MAX)
  }

  predicate InBounds(i: Info) {
    && Plain(i.version) && Plain(i.build) && Plain(i.branch)
    && |i.version| <= VERSION_MAX && |i.build| <= BUILD_MAX && |i.branch| <= BRANCH_MAX
  }

  /** Reading one line that fits. */
  lemma LineParses(line: string, rest: string, so: Parse)
    requires |line| <= LINE_MAX && Plain(line)
    ensures ParsedFrom(line + "\n" + rest, so) == ParsedFrom(rest, Take(WithoutReturn(line), so))
  {
    hide Take;
    var p := line + "\n" + rest;
    assert p[..|line|] == line;
    assert forall c :: c in line ==> c != '\n';
    LineIs(p, |line|);
    assert Rest(p) == rest;
  }

  lemma KeyLine(key: string, field: string)
    requires key != "" && key[|key| - 1] != '\r'
    ensures WithoutReturn(key + field) == key + WithoutReturn(field)
  {
    if field == "" { assert key + field == key; }
  }

  /** What a written file is read as: the same, but for a carriage return at the end of a field. */
  function Trimmed(i: Info): Info {
    Info(WithoutReturn(i.version), WithoutReturn(i.build), WithoutReturn(i.branch), i.critical)
  }

  lemma PrintedIsPlain(i: Info)
    requires InBounds(i)
    ensures CString(Printed(i)) == Printed(i)
  {
    var p := Printed(i);
    assert forall k :: 0 <= k < |p| ==> p[k] != '\0';
    IndexOfIs(p, '\0', |p|);
    assert p[..|p|] == p;
  }

  lemma TakesVersion(field: string, so: Parse)
    requires |field| <= VERSION_MAX
    ensures Take(WithoutReturn("VERSION=" + field), so) == Parse(true, so.info.(version := WithoutReturn(field)))
  {
    KeyLine("VERSION=", field);
  }

  lemma TakesBuild(field: string, so: Parse)
    requires |field| <= BUILD_MAX
    ensures Take(WithoutReturn("BUILD=" + field), so) == so.(info := so.info.(build := WithoutReturn(field)))
  {
    KeyLine("BUILD=", field);
    assert ("BUILD=" + WithoutReturn(field))[0] == 'B';
  }

  lemma TakesBranch(field: string, so: Parse)
    requires |field| <= BRANCH_MAX
    ensures Take(WithoutReturn("BRANCH=" + field), so) == so.(info := so.info.(branch := WithoutReturn(field)))
  {
    KeyLine("BRANCH=", field);
    assert ("BRANCH=" + WithoutReturn(field))[0] == 'B' && ("BRANCH=" + WithoutReturn(field))[1] == 'R';
  }

  lemma TakesCritical(critical: bool, so: Parse)
    ensures Take(WithoutReturn("CRITICAL=" + if critical then "true" else "false"), so)
            == so.(info := so.info.(critical := critical))
  {
    var word := if critical then "true" else "false";
    KeyLine("CRITICAL=", word);
    assert word[0] == if critical then 't' else 'f';
    assert ("CRITICAL=" + word)[0] == 'C' && ("CRITICAL=" + word)[9..] == word;
  }

  lemma VersionLine(field: string, rest: string, so: Parse)
    requires |field| <= VERSION_MAX && Plain(field)
    ensures ParsedFrom("VERSION=" + field + "\n" + rest, so)
            == ParsedFrom(rest, Parse(true, so.info.(version := WithoutReturn(field))))
  {
    hide ParsedFrom, Take, WithoutReturn;
    LineParses("VERSION=" + field, rest, so);
    TakesVersion(field, so);
  }

  lemma BuildLine(field: string, rest: string, so: Parse)
    requires |field| <= BUILD_MAX && Plain(field)
    ensures ParsedFrom("BUILD=" + field + "\n" + rest, so)
            == ParsedFrom(rest, so.(info := so.info.(build := WithoutReturn(field))))
  {
    hide ParsedFrom, Take, WithoutReturn;
    LineParses("BUILD=" + field, rest, so);
    TakesBuild(field, so);
  }

  lemma BranchLine(field: string, rest: string, so: Parse)
    requires |field| <= BRANCH_MAX && Plain(field)
    ensures ParsedFrom("BRANCH=" + field + "\n" + rest, so)
            == ParsedFrom(rest, so.(info := so.info.(branch := WithoutReturn(field))))
  {
    hide ParsedFrom, Take, WithoutReturn;
    LineParses("BRANCH=" + field, rest, so);
    TakesBranch(field, so);
  }

  lemma LastLine(critical: bool, so: Parse)
    ensures ParsedFrom(CriticalLine(critical), so) == so.(info := so.info.(critical := critical))
  {
    hide ParsedFrom, Take, WithoutReturn;
    LineParses("CRITICAL=" + if critical then "true" else "false", "", so);
    TakesCritical(critical, so);
    AtTheEnd(so.(info := so.info.(critical := critical)));
  }

  lemma PrintedParses(i: Info)
    requires InBounds(i)
    ensures Parsed(Printed(i)) == Parse(true, Trimmed(i))
  {
    hide ParsedFrom, WithoutReturn, CriticalLine, Plain;
    PrintedIsPlain(i);
    var l4 := CriticalLine(i.critical);
    var l3 := "BRANCH=" + i.branch + "\n" + l4;
    var l2 := "BUILD=" + i.build + "\n" + l3;
    VersionLine(i.version, l2, NOTHING);
    var p1 := Parse(true, NO_INFO.(version := WithoutReturn(i.version)));
    BuildLine(i.build, l3, p1);
    var p2 := p1.(info := p1.info.(build := WithoutReturn(i.build)));
    BranchLine(i.branch, l4, p2);
    LastLine(i.critical, p2.(info := p2.info.(branch := WithoutReturn(i.branch))));
  }

  lemma AtTheEnd(so: Parse)
    ensures ParsedFrom("", so) == so
  {
  }

  /** Whatever is read, the fields are in bounds. */
  lemma {:induction false} ParsedIsInBounds(p: string, so: Parse)
    requires InBounds(so.info) && forall k :: 0 <= k < |p| ==> p[k] != '\0'
    ensures InBounds(ParsedFrom(p, so).info)
    decreases |p|
  {
    hide InBounds, Take, WithoutReturn;
    if p != "" {
      var line := p[..LineEnd(p)];
      assert forall k :: 0 <= k < |line| ==> line[k] in line;
      TakeKeepsBounds(line, so);
      ParsedIsInBounds(Rest(p), Take(WithoutReturn(line), so));
    }
  }

  lemma TakeKeepsBounds(line: string, so: Parse)
    requires InBounds(so.info) && Plain(line)
    ensures InBounds(Take(WithoutReturn(line), so).info)
  {
    hide Plain;
    var l := WithoutReturn(line);
    PartIsPlain(line, 0, |l|);
    assert line[0..|l|] == l;
    if "VERSION=" <= l { PartIsPlain(l, 8, 8 + |Cut(l[8..], VERSION_MAX)|); }
    else if "BUILD=" <= l { PartIsPlain(l, 6, 6 + |Cut(l[6..], BUILD_MAX)|); }
    else if "BRANCH=" <= l { PartIsPlain(l, 7, 7 + |Cut(l[7..], BRANCH_MAX)|); }
  }

  lemma PartIsPlain(s: string, from: nat, to: nat)
    requires from <= to <= |s| && Plain(s)
    ensures Plain(s[from..to])
    ensures forall most: nat :: Cut(s[from..], most) == s[from..from + |Cut(s[from..], most)|]
  {
  }

  /** VERSION.txt gives back the record it was written from if and only if every field can stand in a line. */
  lemma RoundTripsIff(i: Info)
    ensures Parsed(Printed(i)) == Parse(true, i) <==> AllWritable(i)
  {
    hide Printed, ParsedFrom, IndexOf;
    var text := CString(Printed(i));
    ParsedIsInBounds(text, NOTHING);
    if InBounds(i) { PrintedParses(i); }
  }

  // ---------- which is newer ----------

  datatype Scan = NoNumber | Number(value: int, rest: string)

  /** scanf's %d, up to overflow. */
  function ScanInt(s: string): Scan {
    var t := SkipSpace(s);
    var negative := t != "" && t[0] == '-';
    var u := if t != "" && t[0] in "+-" then t[1..] else t;
    var d := Digits(u);
    if d == "" then NoNumber else Number(if negative then -(Value(d) as int) else Value(d), u[|d|..])
  }

  /** scanf's .%d after what was read before; 0 when it is not there. */
  function ScanNext(before: Scan): Scan {
    if before.NoNumber? || before.rest == "" || before.rest[0] != '.' then NoNumber else ScanInt(before.rest[1..])
  }

  function NumberOr0(s: Scan): int { if s.NoNumber? then 0 else s.value }

  /** parse_version_code: -1 for what does not start with a number. */
  function VersionCode(v: string): int {
    var s := if v != "" && v[0] in "vV" then v[1..] else v;
    var major := ScanInt(s);
    var minor := ScanNext(major);
    var patch := ScanNext(minor);
    if major.NoNumber? then -1 else major.value * 10000 + NumberOr0(minor) * 100 + NumberOr0(patch)
  }

  /** parse_build_code: two digits, an upper-case letter, digits; -1 for anything else. */
  function BuildCode(b: string): int {
    if |b| < 4 || !IsDigit(b[0]) || !IsDigit(b[1]) || !('A' <= b[2] <= 'Z') || !AllDigits(b[3..]) then -1
    else ((b[0] - '0') as int * 10 + (b[1] - '0') as int) * 1000000 + (b[2] - 'A') as int * 10000 + Value(b[3..])
  }

  /** remote_is_newer. */
  predicate Newer(local: Info, remote: Info) {
    var l, r := VersionCode(local.version), VersionCode(remote.version);
    && l >= 0 && r >= 0
    && if r != l then r > l
       else
         var lb, rb := BuildCode(local.build), BuildCode(remote.build);
         lb >= 0 && rb >= 0 && rb > lb
  }

  /** On all records, whatever is in them, "newer" is a strict order. */
  lemma NewerIsStrictOrder(a: Info, b: Info, c: Info)
    ensures !Newer(a, a)
    ensures Newer(a, b) ==> !Newer(b, a)
    ensures Newer(a, b) && Newer(b, c) ==> Newer(a, c)
  {
    hide VersionCode, BuildCode;
  }

  /** A release as its makers number it. */
  datatype Release = Release(major: nat, minor: nat, patch: nat, year: nat, letter: nat, number: nat) {
    predicate Valid() { year < 100 && letter < 26 }
  }

  /** The record that goes with a release; the v in front is optional. */
  function InfoOf(r: Release, v: bool): Info
    requires r.Valid()
  {
    Info((if v then "v" else "") + Dec(r.major) + "." + Dec(r.minor) + "." + Dec(r.patch),
         [((r.year / 10) as char) + '0', ((r.year % 10) as char) + '0', (r.letter as char) + 'A']
         + Dec(r.number),
         "", false)
  }

  lemma ScanOfDigits(d: string, rest: string)
    requires d != "" && AllDigits(d) && (rest == "" || !IsDigit(rest[0]))
    ensures ScanInt(d + rest) == Number(Value(d), rest)
  {
    hide Value;
    DigitsOf(d, rest);
    hide Digits;
    assert (d + rest)[0] == d[0];
    assert SkipSpace(d + rest) == d + rest;
    assert (d + rest)[|d|..] == rest;
  }

  lemma ScanOfDec(n: nat, rest: string)
    requires rest == "" || !IsDigit(rest[0])
    ensures ScanInt(Dec(n) + rest) == Number(n, rest)
  {
    hide Dec, Value, ScanInt;
    ValueOfDec(n);
    ScanOfDigits(Dec(n), rest);
  }

  lemma CodesOfRelease(r: Release, v: bool)
    requires r.Valid()
    ensures VersionCode(InfoOf(r, v).version) == r.major * 10000 + r.minor * 100 + r.patch
    ensures BuildCode(InfoOf(r, v).build) == r.year * 1000000 + r.letter * 10000 + r.number
  {
    hide ScanInt, Dec, Value;
    VersionScans(r, v);
    var b := InfoOf(r, v).build;
    DecIsDigits(r.number);
    ValueOfDec(r.number);
    assert b[3..] == Dec(r.number);
  }

  lemma DecIsDigits(n: nat)
    ensures |Dec(n)| >= 1 && AllDigits(Dec(n))
  {
  }

  lemma VersionScans(r: Release, v: bool)
    requires r.Valid()
    ensures VersionCode(InfoOf(r, v).version) == r.major * 10000 + r.minor * 100 + r.patch
  {
    hide ScanInt, Dec;
    var s := Dec(r.major) + "." + Dec(r.minor) + "." + Dec(r.patch);
    var t := InfoOf(r, v).version;
    DecIsDigits(r.major);
    assert t == (if v then "v" else "") + s;
    assert IsDigit(s[0]) by { assert s[0] == Dec(r.major)[0]; }
    assert (if t[0] in "vV" then t[1..] else t) == s;
    ScanOfDec(r.major, "." + Dec(r.minor) + "." + Dec(r.patch));
    ScanOfDec(r.minor, "." + Dec(r.patch));
    ScanOfDec(r.patch, "");
    assert s == Dec(r.major) + ("." + Dec(r.minor) + "." + Dec(r.patch));
    assert ("." + Dec(r.minor) + "." + Dec(r.patch))[1..] == Dec(r.minor) + ("." + Dec(r.patch));
    assert ("." + Dec(r.patch))[1..] == Dec(r.patch) + "";
  }

  /** The order people mean: major, minor, patch, year, letter, number. */
  predicate Before(a: Release, b: Release) {
    || a.major < b.major
    || (a.major == b.major && (|| a.minor < b.minor
                               || (a.minor == b.minor && (|| a.patch < b.patch
                                                          || (a.patch == b.patch && BuiltBefore(a, b))))))
  }

  predicate BuiltBefore(a: Release, b: Release) {
    || a.year < b.year
    || (a.year == b.year && (a.letter < b.letter || (a.letter == b.letter && a.number < b.number)))
  }

  const INT_MAX := 0x7fff_ffff

  /** The largest major whose code fits a C int, with minor and patch up to 99. */
  const MAJOR_MAX := 214747

  predicate Within(r: Release, most: nat, mostNumber: nat) {
    r.Valid() && r.major <= MAJOR_MAX && r.minor <= most && r.patch <= most && r.number <= mostNumber
  }

  /** Every step of the arithmetic stays inside a C int, and the build code inside a C long. */
  lemma CodesFit(r: Release, v: bool)
    requires Within(r, 99, 9999)
    ensures r.major * 10000 <= VersionCode(InfoOf(r, v).version) <= INT_MAX
    ensures 0 <= BuildCode(InfoOf(r, v).build) <= INT_MAX
  {
    hide VersionCode, BuildCode, InfoOf;
    CodesOfRelease(r, v);
  }

  /** One major more does not fit. */
  lemma MajorIsTight()
    ensures exists r: Release :: r.Valid() && r.major == MAJOR_MAX + 1 && r.minor <= 99 && r.patch <= 99
                                 && VersionCode(InfoOf(r, false).version) > INT_MAX
  {
    var r := Release(MAJOR_MAX + 1, 99, 99, 0, 0, 0);
    hide VersionCode, BuildCode, InfoOf;
    CodesOfRelease(r, false);
  }

  predicate Agrees(a: Release, b: Release, va: bool, vb: bool)
    requires a.Valid() && b.Valid()
  {
    Newer(InfoOf(a, va), InfoOf(b, vb)) <==> Before(a, b)
  }

  lemma AgreesWithin(a: Release, b: Release, va: bool, vb: bool)
    requires Within(a, 99, 9999) && Within(b, 99, 9999)
    ensures Agrees(a, b, va, vb)
  {
    hide VersionCode, BuildCode, InfoOf;
    CodesOfRelease(a, va);
    CodesOfRelease(b, vb);
  }

  /** On releases whose major has a code that fits, whose minor and patch are at most `most` and whose build number is
      at most `mostNumber`, "newer" is the order people mean if and only if those bounds are at most 99 and 9999. */
  lemma LexicographicIff(most: nat, mostNumber: nat)
    ensures (forall a: Release, b: Release, va, vb ::
               Within(a, most, mostNumber) && Within(b, most, mostNumber) ==> Agrees(a, b, va, vb))
            <==> most <= 99 && mostNumber <= 9999
  {
    hide Newer, InfoOf;
    if most <= 99 && mostNumber <= 9999 {
      forall a: Release, b: Release, va, vb | Within(a, most, mostNumber) && Within(b, most, mostNumber)
        ensures Agrees(a, b, va, vb)
      {
        AgreesWithin(a, b, va, vb);
      }
    } else if most > 99 {
      var a, b := Release(0, 0, 100, 0, 0, 0), Release(0, 1, 0, 0, 0, 0);
      SameCodes(a, b);
      assert Within(a, most, mostNumber) && Within(b, most, mostNumber);
    } else {
      var a, b := Release(0, 0, 0, 0, 0, 10000), Release(0, 0, 0, 0, 1, 0);
      SameCodes(a, b);
      assert Within(a, most, mostNumber) && Within(b, most, mostNumber);
    }
  }

  /** Two releases with equal codes are not told apart. */
  lemma SameCodes(a: Release, b: Release)
    requires a.Valid() && b.Valid() && Before(a, b)
    requires a.major * 10000 + a.minor * 100 + a.patch == b.major * 10000 + b.minor * 100 + b.patch
    requires a.year * 1000000 + a.letter * 10000 + a.number == b.year * 1000000 + b.letter * 10000 + b.number
    ensures !Agrees(a, b, false, false)
  {
    hide VersionCode, BuildCode, InfoOf;
    CodesOfRelease(a, false);
    CodesOfRelease(b, false);
  }
}
