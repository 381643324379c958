/** Calibration: three captures folded into the calibration data, and a blank image kept in partition 6. */
module Calibrate {
  import opened Options
  import opened Bytes
  import opened Sensor
  import opened Flash
  import opened CalibrationMath

  const CLEAN_SLATE: byte := 6
  const MAGIC_SLATE := 0x5002
  const HEADER := 0x44
  const CALIB_MAX := 16384

  type Digest = d: bytes | |d| == 32 witness seq(32, _ => 0)

  datatype Mode = Calibrating | Identifying | Enrolling

  /** What the model takes as it comes: the capture program's geometry, the factory reply's parsing, the chunks of a
      capture command and SHA-256. */
  datatype Kernels = Kernels(
    linesPerFrame: Option<nat>,
    factoryOf: bytes -> Option<bytes>,
    chunks: (Mode, bytes, bytes) -> Option<bytes>,
    sha256: bytes -> Digest)

  // ---------- the clean-slate blob ----------

  function Stage(image: bytes): bytes { U16(|image|) + image + U16(0) }

  function Slate(image: bytes, sha256: bytes -> Digest): bytes {
    U16(MAGIC_SLATE) + U16(|Stage(image)|) + sha256(Stage(image)) + Zeros(0x20) + Stage(image)
  }

  /** What a reader of partition 6 accepts: magic, length, digest, reserved zeros and inner lengths all agree. */
  function DecodeSlate(part: bytes, sha256: bytes -> Digest): Option<bytes> {
    if |part| < HEADER || Rd16(part, 0) != MAGIC_SLATE || part[36..HEADER] != Zeros(0x20) then None
    else
      var len := Rd16(part, 2);
      if len < 4 || HEADER + len > |part| then None
      else
        var stage := part[HEADER..HEADER + len];
        if sha256(stage) != part[4..36] || Rd16(stage, 0) != len - 4 || Rd16(stage, len - 2) != 0 then None
        else Some(stage[2..len - 2])
  }

  lemma SlateHeader(image: bytes, sha256: bytes -> Digest, rest: bytes)
    ensures var part := Slate(image, sha256) + rest;
            && |part| == HEADER + |image| + 4 + |rest|
            && Rd16(part, 0) == MAGIC_SLATE && Rd16(part, 2) == (|image| + 4) % U16_SIZE
            && part[4..36] == sha256(Stage(image)) && part[36..HEADER] == Zeros(0x20)
            && part[HEADER..HEADER + |image| + 4] == Stage(image)
  {
    hide U16, Rd16;
    var stage := Stage(image);
    var part := Slate(image, sha256) + rest;
    var tail := sha256(stage) + Zeros(0x20) + stage + rest;
    FieldAt16([], MAGIC_SLATE, U16(|stage|) + tail);
    FieldAt16(U16(MAGIC_SLATE), |stage|, tail);
    assert part == [] + U16(MAGIC_SLATE) + (U16(|stage|) + tail);
    assert part == U16(MAGIC_SLATE) + U16(|stage|) + tail;
    assert part == (U16(MAGIC_SLATE) + U16(|stage|)) + sha256(stage) + (Zeros(0x20) + stage + rest);
    assert part == (U16(MAGIC_SLATE) + U16(|stage|) + sha256(stage)) + Zeros(0x20) + (stage + rest);
    assert part == (U16(MAGIC_SLATE) + U16(|stage|) + sha256(stage) + Zeros(0x20)) + stage + rest;
  }

  lemma StageFields(image: bytes)
    ensures var stage := Stage(image);
            && |stage| == |image| + 4 && Rd16(stage, 0) == |image| % U16_SIZE && Rd16(stage, |image| + 2) == 0
            && stage[2..|image| + 2] == image
  {
    FieldAt16([], |image|, image + U16(0));
    assert Stage(image) == [] + U16(|image|) + (image + U16(0));
    FieldAt16(U16(|image|) + image, 0, []);
    assert Stage(image) == U16(|image|) + image + U16(0) + [];
  }

  /** The blob is read back as the image it was made of if and only if no length in it was truncated. */
  lemma SlateRoundTripsIff(image: bytes, sha256: bytes -> Digest, rest: bytes)
    ensures DecodeSlate(Slate(image, sha256) + rest, sha256) == Some(image) <==> |image| + 4 < U16_SIZE
  {
    hide Slate, Stage, Rd16;
    SlateHeader(image, sha256, rest);
    StageFields(image);
  }

  /** The blob as the code builds it, in two buffers filled from the front. */
  method BuildSlate(cooked: array<byte>, cookedLen: nat, sha256: bytes -> Digest) returns (blob: bytes)
    requires cookedLen <= cooked.Length <= CALIB_MAX
    ensures blob == Slate(cooked[..cookedLen], sha256)
  {
    hide U16;
    var stageB := new byte[4 + CALIB_MAX];
    var finalBlob := new byte[HEADER + 4 + CALIB_MAX];
    var pos := 0;
    Put(stageB, pos, U16(cookedLen));
    pos := pos + 2;
    Put(stageB, pos, cooked[..cookedLen]);
    pos := pos + cookedLen;
    Put(stageB, pos, [0, 0]);
    pos := pos + 2;
    var stage := stageB[..pos];
    assert stage == Stage(cooked[..cookedLen]) by {
      assert U16(0) == [0, 0] by { U16OfZero(); }
      assert stage == ([] + U16(cookedLen)) + cooked[..cookedLen] + [0, 0];
    }
    var digest := sha256(stage);
    pos := 0;
    Put(finalBlob, pos, U16(MAGIC_SLATE));
    pos := pos + 2;
    Put(finalBlob, pos, U16(|stage|));
    pos := pos + 2;
    Put(finalBlob, pos, digest);
    pos := pos + 32;
    Put(finalBlob, pos, Zeros(0x20));
    pos := pos + 0x20;
    Put(finalBlob, pos, stage);
    pos := pos + |stage|;
    blob := finalBlob[..pos];
    assert blob == [] + U16(MAGIC_SLATE) + U16(|stage|) + digest + Zeros(0x20) + stage;
  }

  lemma U16OfZero()
    ensures U16(0) == [0, 0]
  {
  }

  /** The store with nothing but partition 6 different. */
  predicate OnlySlateChanges(before: Store, after: Store) {
    after.db == before.db && after.flash - {CLEAN_SLATE} == before.flash - {CLEAN_SLATE}
  }

  lemma EraseChangesOnlySlate(before: Store, after: Store)
    requires after == before || (CLEAN_SLATE in before.flash && after == Erased(before, CLEAN_SLATE))
    ensures OnlySlateChanges(before, after)
  {
  }

  lemma WriteChangesOnlySlate(before: Store, addr: nat, data: bytes)
    requires data != [] ==> Fits(before, CLEAN_SLATE, addr, |data|)
    ensures OnlySlateChanges(before, WrittenSoFar(before, CLEAN_SLATE, addr, data))
  {
  }

  /** mmis_persist_clean_slate: on success partition 6 is the blob and erased bytes behind it, and every mutation and
      cleanup on the way was answered well. */
  method PersistCleanSlate(d: Device, blob: bytes) returns (ok: bool)
    requires d.store.Valid()
    modifies d
    ensures d.store.Valid() && Brackets(old(d.log), d.log, FLASH_OPS) && OnlySlateChanges(old(d.store), d.store)
    ensures ok ==> WentWell(old(d.log), d.log, MUTATIONS)
    ensures blob == [] ==> !ok && d.store == old(d.store)
    ensures ok ==> CLEAN_SLATE in d.store.flash
                   && exists rest: bytes :: d.store.flash[CLEAN_SLATE] == blob + rest
  {
    hide Brackets, WentWell, Accepted, Erased, WrittenSoFar, Programmed, EraseBytes;
    ghost var before, log := d.store, d.log;
    NothingSaid(log, FLASH_OPS);
    if blob == [] { return false; }
    ok := EraseFlash(d, CLEAN_SLATE);
    AreFlashOps(CLEAN_SLATE, 0, []);
    if |d.log| == |log| + 1 {
      OneQuestion(log, d.log, FLASH_OPS);
    } else {
      OneMutation(log, d.log, App(EraseBytes(CLEAN_SLATE)), FLASH_OPS);
    }
    EraseChangesOnlySlate(before, d.store);
    if !ok { return; }
    ghost var erased, written, said := d.store, 0, d.log;
    ok, written := WriteFlashAll(d, CLEAN_SLATE, 0, blob);
    Continued(log, said, d.log, FLASH_OPS);
    WriteChangesOnlySlate(erased, 0, blob[..written]);
    if ok {
      assert blob[..written] == blob;
      ErasedThenWritten(before, erased, blob);
    }
  }

  lemma ErasedThenWritten(before: Store, erased: Store, blob: bytes)
    requires blob != [] && CLEAN_SLATE in before.flash && erased == Erased(before, CLEAN_SLATE)
    requires Fits(erased, CLEAN_SLATE, 0, |blob|)
    ensures var after := WrittenSoFar(erased, CLEAN_SLATE, 0, blob);
            CLEAN_SLATE in after.flash && exists rest: bytes :: after.flash[CLEAN_SLATE] == blob + rest
  {
    var part := erased.flash[CLEAN_SLATE];
    ProgrammedOnErased(part, 0, blob);
    assert part[..0] + blob + part[|blob|..] == blob + part[|blob|..];
  }

  // ---------- captures ----------

  /** mmis_build_cmd_02: the fixed header before the chunks; [] when it cannot be built. */
  function BuildCapture(k: Kernels, mode: Mode, linesPerFrame: nat, factory: bytes, calib: bytes): (cmd: bytes)
    ensures !Mutating(App(cmd))
  {
    var chunks := k.chunks(mode, factory, calib);
    if chunks.None? || chunks.value == [] || 5 + |chunks.value| > 32768 then []
    else [2] + U16(BYTES_PER_LINE) + U16(if mode.Calibrating? then 3 * linesPerFrame + 1 else 0) + chunks.value
  }

  predicate Usable(raw: Option<bytes>, linesPerFrame: nat) {
    raw.Some? && CanAverage(|raw.value|, linesPerFrame, BYTES_PER_LINE, LINES_PER_CALIBRATION_DATA, CALIB_MAX)
  }

  /** The averaged frame of one bulk read. */
  function FrameOf(raw: Option<bytes>, linesPerFrame: nat): bytes
    requires Usable(raw, linesPerFrame)
  {
    AverageOf(raw.value, linesPerFrame, BYTES_PER_LINE, LINES_PER_CALIBRATION_DATA)
  }

  /** As many averaged lines as the frame has groups. */
  function FrameLength(linesPerFrame: nat): nat {
    var inter := Interleave(linesPerFrame, LINES_PER_CALIBRATION_DATA);
    if inter <= 1 then 0 else linesPerFrame * BYTES_PER_LINE / (inter * BYTES_PER_LINE) * BYTES_PER_LINE
  }

  /** Every frame of a run is as long as every other, and not empty. */
  lemma FramesAreAlike(raw: Option<bytes>, linesPerFrame: nat)
    requires Usable(raw, linesPerFrame)
    ensures 0 < |FrameOf(raw, linesPerFrame)| == FrameLength(linesPerFrame) <= CALIB_MAX
    ensures FrameLength(linesPerFrame) % BYTES_PER_LINE == 0
  {
    var inter := Interleave(linesPerFrame, LINES_PER_CALIBRATION_DATA);
    var size := linesPerFrame * BYTES_PER_LINE;
    assert size >= inter * BYTES_PER_LINE;
    assert size / (inter * BYTES_PER_LINE) >= 1;
  }

  /** The averaged frames of the first n bulk reads. */
  function Frames(bulk: seq<Option<bytes>>, linesPerFrame: nat, n: nat): (frames: seq<bytes>)
    requires n <= |bulk| && forall i :: 0 <= i < n ==> Usable(bulk[i], linesPerFrame)
    ensures |frames| == n && SameLength(frames) && forall f :: f in frames ==> f != []
    ensures forall i :: 0 <= i < n ==> frames[i] == FrameOf(bulk[i], linesPerFrame)
  {
    var frames := seq(n, i requires 0 <= i < n => FrameOf(bulk[i], linesPerFrame));
    assert forall i :: 0 <= i < n ==> 0 < |frames[i]| == FrameLength(linesPerFrame) by {
      forall i | 0 <= i < n ensures 0 < |frames[i]| == FrameLength(linesPerFrame) {
        FramesAreAlike(bulk[i], linesPerFrame);
      }
    }
    frames
  }

  /** The calibration data of a run. */
  function CalibrationData(bulk: seq<Option<bytes>>, linesPerFrame: nat, n: nat): bytes
    requires n <= |bulk| && forall i :: 0 <= i < n ==> Usable(bulk[i], linesPerFrame)
  {
    Accumulated(Frames(bulk, linesPerFrame, n), BYTES_PER_LINE)
  }

  lemma OneMoreFrame(bulk: seq<Option<bytes>>, linesPerFrame: nat, n: nat)
    requires n < |bulk| && forall i :: 0 <= i <= n ==> Usable(bulk[i], linesPerFrame)
    ensures var before := CalibrationData(bulk, linesPerFrame, n);
            var frame := FrameOf(bulk[n], linesPerFrame);
            && (before == [] || |before| == |frame|)
            && CalibrationData(bulk, linesPerFrame, n + 1) == Update(before, frame, BYTES_PER_LINE)
  {
    hide Update;
    var more := Frames(bulk, linesPerFrame, n + 1);
    assert more[..n] == Frames(bulk, linesPerFrame, n);
    FramesAreAlike(bulk[n], linesPerFrame);
    if n > 0 { FramesAreAlike(bulk[0], linesPerFrame); }
  }

  /** One capture: the command, the bulk read, the average. */
  method Capture(d: Device, k: Kernels, linesPerFrame: nat, factory: bytes, calib: bytes, raw: Option<bytes>,
                 cooked: array<byte>) returns (ok: bool, cookedLen: nat)
    requires d.store.Valid() && cooked.Length == CALIB_MAX
    modifies d, cooked
    ensures d.store == old(d.store) && Asks(old(d.log), d.log)
    ensures ok ==>
              Usable(raw, linesPerFrame) && cookedLen <= CALIB_MAX && cooked[..cookedLen] == FrameOf(raw, linesPerFrame)
  {
    hide Asks, AverageOf, BuildCapture;
    ghost var log := d.log;
    NothingSaid(log, FLASH_OPS);
    var cmd := BuildCapture(k, Calibrating, linesPerFrame, factory, calib);
    if cmd == [] { return false, 0; }
    CaptureDecodes(k, Calibrating, linesPerFrame, factory, calib);
    var n, reply := d.Transfer(App(cmd), 16384);
    OneQuestion(log, d.log, FLASH_OPS);
    if n < 0 || !StatusOk(reply) { return false, 0; }
    if raw.None? { return false, 0; }
    ok, cookedLen := Average(raw.value, linesPerFrame, BYTES_PER_LINE, LINES_PER_CALIBRATION_DATA, cooked);
  }

  lemma CaptureDecodes(k: Kernels, mode: Mode, linesPerFrame: nat, factory: bytes, calib: bytes)
    ensures var cmd := BuildCapture(k, mode, linesPerFrame, factory, calib); cmd != [] ==> Decode(App(cmd)) == OtherCmd
  {
  }

  /** get_factory_bits for tag 0x0e00. */
  method FactoryValues(d: Device, k: Kernels) returns (values: Option<bytes>)
    requires d.store.Valid()
    modifies d
    ensures d.store == old(d.store) && Asks(old(d.log), d.log)
  {
    hide Asks;
    ghost var log := d.log;
    var n, reply := d.Transfer(App([0x6f, 0x00, 0x0e, 0, 0, 0, 0, 0, 0]), 4096);
    OneQuestion(log, d.log, FLASH_OPS);
    if n < 0 || !StatusOk(reply) { return None; }
    return k.factoryOf(reply);
  }

  /** The three iterations: calib_cur and calib_next change roles after each, and are never the same buffer. */
  method Accumulate(d: Device, k: Kernels, linesPerFrame: nat, factory: bytes, bulk: seq<Option<bytes>>,
                    cooked: array<byte>)
    returns (ok: bool, calib: array<byte>, calibLen: nat)
    requires d.store.Valid() && cooked.Length == CALIB_MAX && |bulk| > ITERATIONS
    modifies d, cooked
    ensures d.store == old(d.store) && Asks(old(d.log), d.log)
    ensures fresh(calib) && calibLen <= calib.Length == CALIB_MAX
    ensures ok ==> (forall i :: 0 <= i < ITERATIONS ==> Usable(bulk[i], linesPerFrame))
                   && calib[..calibLen] == CalibrationData(bulk, linesPerFrame, ITERATIONS)
  {
    hide Asks, Update, FrameOf, CalibrationData, CanAverage;
    ghost var log := d.log;
    NothingSaid(log, FLASH_OPS);
    var calibCur, calibNext := new byte[CALIB_MAX], new byte[CALIB_MAX];
    ok, calib, calibLen := false, calibCur, 0;
    NoFrames(bulk, linesPerFrame);
    var i := 0;
    while i < ITERATIONS
      invariant 0 <= i <= ITERATIONS
      invariant calibCur != calibNext && fresh(calibCur) && fresh(calibNext)
      invariant calibLen <= calibCur.Length == calibNext.Length == CALIB_MAX
      invariant d.store == old(d.store) && log == old(d.log) && Asks(log, d.log)
      invariant forall j :: 0 <= j < i ==> Usable(bulk[j], linesPerFrame)
      invariant calibCur[..calibLen] == CalibrationData(bulk, linesPerFrame, i)
      invariant calib.Length == CALIB_MAX && calib in {calibCur, calibNext}
    {
      ghost var data, said := calibCur[..calibLen], d.log;
      var got, cookedLen := Capture(d, k, linesPerFrame, factory, calibCur[..calibLen], bulk[i], cooked);
      AskedOn(log, said, d.log);
      assert calibCur[..calibLen] == data;
      if !got { return false, calibCur, 0; }
      OneMoreFrame(bulk, linesPerFrame, i);
      ghost var frame := cooked[..cookedLen];
      var done, writtenLen := ProcessResults(cooked, cookedLen, BYTES_PER_LINE, calibCur, calibLen, calibNext);
      if !done { return false, calibCur, 0; }
      assert cooked[..cookedLen] == frame && calibCur[..calibLen] == data;
      calibCur, calibNext := calibNext, calibCur;
      calibLen := writtenLen;
      i := i + 1;
    }
    return true, calibCur, calibLen;
  }

  lemma NoFrames(bulk: seq<Option<bytes>>, linesPerFrame: nat)
    ensures CalibrationData(bulk, linesPerFrame, 0) == []
  {
  }

  /** metallica_mis_do_calibrate_ex. Whatever the sensor answers, records and other partitions stay as they are and
      every mutation is bracketed. On success partition 6 decodes to the average of the fourth capture, and the caller
      gets the calibration data of the first three, unless its buffer is null; one that is too small is a failure.
      Success also means that every mutation and every cleanup was answered well. */
  method DoCalibrate(d: Device, k: Kernels, bulk: seq<Option<bytes>>, out: array?<byte>)
    returns (ok: bool, calibLen: nat)
    requires d.store.Valid() && |bulk| == ITERATIONS + 1
    modifies d, if out == null then {} else {out}
    ensures d.store.Valid() && Brackets(old(d.log), d.log, FLASH_OPS) && OnlySlateChanges(old(d.store), d.store)
    ensures ok ==> WentWell(old(d.log), d.log, MUTATIONS)
    ensures ok ==> k.linesPerFrame.Some? && forall i :: 0 <= i <= ITERATIONS ==> Usable(bulk[i], k.linesPerFrame.value)
    ensures ok ==> CLEAN_SLATE in d.store.flash
                   && DecodeSlate(d.store.flash[CLEAN_SLATE], k.sha256)
                      == Some(FrameOf(bulk[ITERATIONS], k.linesPerFrame.value))
    ensures ok && out != null ==>
              calibLen <= out.Length && out[..calibLen] == CalibrationData(bulk, k.linesPerFrame.value, ITERATIONS)
    ensures out != null && !(ok && calibLen <= out.Length) ==> out[..] == old(out[..])
    ensures !ok || out == null ==> calibLen == 0
  {
    hide Asks, Brackets, WentWell, FrameOf, CalibrationData, CanAverage, DecodeSlate, Slate;
    ok, calibLen := false, 0;
    ghost var log := d.log;
    NothingSaid(log, FLASH_OPS);
    if k.linesPerFrame.None? { return; }
    var linesPerFrame := k.linesPerFrame.value;
    var factory := FactoryValues(d, k);
    OnlyAsked(log, d.log, FLASH_OPS);
    if factory.None? { return; }
    ghost var said := d.log;
    var cooked := new byte[CALIB_MAX];
    var got, calib, len := Accumulate(d, k, linesPerFrame, factory.value, bulk, cooked);
    OnlyAsked(said, d.log, FLASH_OPS);
    Continued(log, said, d.log, FLASH_OPS);
    if !got { return; }
    said := d.log;
    ghost var data := calib[..len];
    var cookedLen;
    got, cookedLen := Capture(d, k, linesPerFrame, factory.value, calib[..len], bulk[ITERATIONS], cooked);
    OnlyAsked(said, d.log, FLASH_OPS);
    Continued(log, said, d.log, FLASH_OPS);
    if !got { return; }
    FramesAreAlike(bulk[ITERATIONS], linesPerFrame);
    var blob := BuildSlate(cooked, cookedLen, k.sha256);
    said := d.log;
    var persisted := PersistCleanSlate(d, blob);
    Continued(log, said, d.log, FLASH_OPS);
    if !persisted { return; }
    ghost var rest: bytes :| d.store.flash[CLEAN_SLATE] == blob + rest;
    SlateRoundTripsIff(cooked[..cookedLen], k.sha256, rest);
    assert calib[..len] == data;
    if out != null {
      if len > out.Length { return; }
      forall i | 0 <= i < len { out[i] := calib[i]; }
      calibLen := len;
    }
    ok := true;
  }

  /** What the caller is handed, sample by sample: no byte of it was saturated on the way. */
  lemma CalibrationIsExact(bulk: seq<Option<bytes>>, linesPerFrame: nat, at: nat)
    requires |bulk| >= ITERATIONS && forall i :: 0 <= i < ITERATIONS ==> Usable(bulk[i], linesPerFrame)
    requires at < FrameLength(linesPerFrame)
    ensures var data := CalibrationData(bulk, linesPerFrame, ITERATIONS);
            var f0, f1, f2 := FrameOf(bulk[0], linesPerFrame), FrameOf(bulk[1], linesPerFrame),
              FrameOf(bulk[2], linesPerFrame);
            |data| == |f0| == |f1| == |f2| == FrameLength(linesPerFrame)
            && if at % BYTES_PER_LINE < LINE_HEADER then data[at] == f0[at]
               else Signed(data[at]) == Weight(f0[at]) + Weight(f1[at]) + Weight(f2[at])
  {
    hide FrameOf, Weight, AverageOf;
    forall i: nat | i < ITERATIONS ensures |FrameOf(bulk[i], linesPerFrame)| == FrameLength(linesPerFrame) {
      FramesAreAlike(bulk[i], linesPerFrame);
    }
    var frames := Frames(bulk, linesPerFrame, ITERATIONS);
    NothingSaturates(frames, BYTES_PER_LINE, at);
    var two, one: seq<bytes> := frames[..2], frames[..1];
    assert two[..1] == one && one[..0] == [];
    assert WeightSum(frames[..1], at) == Weight(frames[0][at]);
    assert WeightSum(frames[..2], at) == WeightSum(frames[..1], at) + Weight(frames[1][at]);
  }
}
