/** Enrollment: captures, template updates, and the new print saved as a finger record. */
module Enroll {
  import opened Options
  import opened Bytes
  import opened Sensor
  import opened Flash
  import opened Database
  import opened Calibrate
  import opened EnrollReply
  import opened FingerData

  const MAX_ATTEMPTS := 30
  const MAX_BAD_IN_A_ROW := 4
  const UPDATE_MAX := 128 * 1024
  const RECORD_MAX := TEMPLATE_MAX + 2048

  // ---------- interrupts ----------

  /** One wait for an interrupt; an interrupt has at least one byte. */
  datatype Wait = Interrupt(kind: byte, rest: bytes) | TimedOut | UsbError | Aborted

  /** The interrupts still to come, in order; when there are none left, waits time out. */
  class Interrupts {
    var pending: seq<Wait>

    constructor (pending: seq<Wait>)
      ensures this.pending == pending
    {
      this.pending := pending;
    }

    method Next() returns (w: Wait)
      modifies this
      ensures if old(pending) == [] then w == TimedOut && pending == []
              else w == old(pending)[0] && pending == old(pending)[1..]
    {
      if pending == [] { return TimedOut; }
      w := pending[0];
      pending := pending[1..];
    }
  }

  predicate IsFinger(w: Wait) { w.Interrupt? && w.kind == 2 }

  predicate IsProgress(w: Wait) { w.Interrupt? && w.kind == 3 && |w.rest| >= 2 }

  predicate IsComplete(w: Wait) { IsProgress(w) && w.rest[1] / 4 % 2 == 1 }

  /** The interrupts of a whole capture: a start of type 0, anything up to a finger, then progress up to the first
      that says complete. */
  predicate CaptureRow(row: seq<Wait>, finger: nat) {
    && 1 <= finger < |row| - 1
    && row[0].Interrupt? && row[0].kind == 0
    && IsFinger(row[finger]) && (forall i :: 1 <= i < finger ==> row[i].Interrupt? && !IsFinger(row[i]))
    && (forall i :: finger < i < |row| ==> IsProgress(row[i]) && (IsComplete(row[i]) <==> i == |row| - 1))
  }

  // ---------- single commands ----------

  /** A command that changes nothing the sensor keeps. */
  method SimpleApp(d: Device, cmd: bytes, cap: nat) returns (ok: bool, rsp: bytes)
    requires d.store.Valid() && Decode(App(cmd)) == OtherCmd && !Mutating(App(cmd))
    modifies d
    ensures d.store == old(d.store) && d.log == old(d.log) + [Exchange(App(cmd), rsp)] && Asks(old(d.log), d.log)
    ensures |rsp| <= cap && (ok <==> StatusOk(rsp))
  {
    hide Asks, Decode, Mutating;
    ghost var log := d.log;
    var n;
    n, rsp := d.Transfer(App(cmd), cap);
    OneQuestion(log, d.log, {});
    ok := n >= 0 && StatusOk(rsp);
  }

  datatype Capturing = Captured | NoFinger | CaptureFailed | CaptureAborted

  /** The interrupts of one capture, from the start to completion. */
  method AwaitCapture(usb: Interrupts) returns (r: Capturing, ghost used: nat, ghost finger: nat)
    modifies usb
    ensures used <= |old(usb.pending)| && usb.pending == old(usb.pending)[used..]
    ensures r == Captured ==> CaptureRow(old(usb.pending)[..used], finger)
  {
    ghost var row := usb.pending;
    used, finger := 0, 0;
    var w := usb.Next();
    used := if row == [] then 0 else 1;
    if w.TimedOut? { return NoFinger, used, 0; }
    if !w.Interrupt? || w.kind != 0 { return CaptureFailed, used, 0; }
    while true
      invariant 1 <= used <= |row| && usb.pending == row[used..]
      invariant row[0].Interrupt? && row[0].kind == 0
      invariant forall i :: 1 <= i < used ==> row[i].Interrupt? && !IsFinger(row[i])
      decreases |row| - used
    {
      w := usb.Next();
      used := if used == |row| then used else used + 1;
      if w.Aborted? { return CaptureAborted, used, 0; }
      if w.TimedOut? { return NoFinger, used, 0; }
      if w.UsbError? { return CaptureFailed, used, 0; }
      if w.kind == 2 { break; }
    }
    finger := used - 1;
    while true
      invariant 1 <= finger < used <= |row| && usb.pending == row[used..]
      invariant row[0].Interrupt? && row[0].kind == 0 && IsFinger(row[finger])
      invariant forall i :: 1 <= i < finger ==> row[i].Interrupt? && !IsFinger(row[i])
      invariant forall i :: finger < i < used ==> IsProgress(row[i]) && !IsComplete(row[i])
      decreases |row| - used
    {
      w := usb.Next();
      used := if used == |row| then used else used + 1;
      if !w.Interrupt? || w.kind != 3 || |w.rest| < 2 { return CaptureFailed, used, finger; }
      if w.rest[1] / 4 % 2 == 1 { break; }
    }
    return Captured, used, finger;
  }

  const STATUS2: bytes := [0x51, 0x00, 0x20, 0x00, 0x00]
  const STOP: bytes := [0x04]

  /** The reply to get_prg_status2 has the length it says and reports no error. */
  predicate GoodScan(rsp: bytes) {
    StatusOk(rsp) && |rsp| >= 6 && Rd32(rsp, 2) == |rsp| - 6 && Rd32(rsp, 2) >= 12 && Rd32(rsp, 14) == 0
  }

  /** capture_mode: nothing is sent when the command cannot be built; otherwise the capture is stopped on every path.
      The scan is asked for exactly after a whole row of capture interrupts, and the capture succeeds exactly when both
      the command and the scan were answered well. */
  method CaptureMode(d: Device, usb: Interrupts, k: Kernels, mode: Mode, factory: bytes, calib: bytes)
    returns (r: Capturing, ghost used: nat, ghost finger: nat)
    requires d.store.Valid() && k.linesPerFrame.Some?
    modifies d, usb
    ensures d.store == old(d.store) && Asks(old(d.log), d.log)
    ensures var cmd := BuildCapture(k, mode, k.linesPerFrame.value, factory, calib);
            if cmd == [] then r == CaptureFailed && d.log == old(d.log)
            else || Sent(old(d.log), d.log, [App(cmd), App(STOP)])
                 || Sent(old(d.log), d.log, [App(cmd), App(STATUS2), App(STOP)])
    ensures r == Captured <==> |d.log| == |old(d.log)| + 3 && GoodScan(d.log[|old(d.log)| + 1].reply)
    ensures |d.log| == |old(d.log)| + 3 ==>
              StatusOk(d.log[|old(d.log)|].reply) && used <= |old(usb.pending)|
                && CaptureRow(old(usb.pending)[..used], finger)
    ensures used <= |old(usb.pending)| && usb.pending == old(usb.pending)[used..]
  {
    hide Asks, BuildCapture, CaptureRow, GoodScan;
    ghost var log := d.log;
    NothingSaid(log, {});
    var cmd := BuildCapture(k, mode, k.linesPerFrame.value, factory, calib);
    r, used, finger := CaptureFailed, 0, 0;
    if cmd == [] { return; }
    CaptureDecodes(k, mode, k.linesPerFrame.value, factory, calib);
    PlainCommands();
    var sentOk, rsp := SimpleApp(d, cmd, UPDATE_MAX);
    if sentOk {
      r, used, finger := AwaitCapture(usb);
      if r == Captured {
        ghost var said := d.log;
        sentOk, rsp := SimpleApp(d, STATUS2, UPDATE_MAX);
        AskedOn(log, said, d.log);
        if !GoodScan(rsp) { r := CaptureFailed; }
      }
    }
    ghost var said := d.log;
    sentOk, rsp := SimpleApp(d, STOP, 64);
    AskedOn(log, said, d.log);
  }

  lemma PlainCommands()
    ensures Decode(App(STATUS2)) == OtherCmd && !Mutating(App(STATUS2))
    ensures Decode(App(STOP)) == OtherCmd && !Mutating(App(STOP))
    ensures Decode(LIGHT) == OtherCmd && !Mutating(LIGHT)
  {
  }

  // ---------- template updates ----------

  function UpdateBytes(prev: bytes): bytes { [0x6b] + prev }

  predicate IsUpdate(m: Message) { IsOp(m, UPDATE_OPS) }

  /** enrollment_update: success exactly when the update and the cleanup both went well, and then `out` is the reply
      to the update behind its status word. */
  method EnrollmentUpdate(d: Device, prev: bytes) returns (ok: bool, out: bytes)
    requires d.store.Valid()
    modifies d
    ensures d.store == old(d.store) && Brackets(old(d.log), d.log, UPDATE_OPS)
    ensures Sent(old(d.log), d.log, [WriteEnable, App(UpdateBytes(prev)), CLEANUP])
            || (!ok && Sent(old(d.log), d.log, [WriteEnable]))
    ensures ok <==> Accepted(old(d.log), d.log, 3)
    ensures ok ==> out == d.log[|d.log| - 2].reply[2..]
  {
    hide Brackets;
    ghost var log := d.log;
    ok, out := false, [];
    var enabled := EnableWrites(d);
    OneQuestion(log, d.log, UPDATE_OPS);
    if !enabled { return; }
    var n, rsp := d.Transfer(App(UpdateBytes(prev)), UPDATE_MAX);
    if n >= 0 && StatusOk(rsp) { ok, out := true, rsp[2..]; }
    var cleanupOk := CallCleanups(d);
    OneMutation(log, d.log, App(UpdateBytes(prev)), UPDATE_OPS);
    if !cleanupOk { ok := false; }
  }

  /** What append_new_image can have sent: nothing yet, or some beginning of two whole updates. */
  predicate Appending(messages: seq<Message>, update: Message) {
    || messages == []
    || messages == [WriteEnable]
    || messages == [WriteEnable, update, CLEANUP]
    || messages == [WriteEnable, update, CLEANUP, WriteEnable]
    || messages == [WriteEnable, update, CLEANUP, WriteEnable, update, CLEANUP]
  }

  /** The exchange at `at` is an update that was answered with a whole image, and cleaned up after. */
  ghost predicate TookImage(log: Log, at: nat) {
    && at + 1 < |log| && IsUpdate(log[at].sent) && log[at + 1].sent == CLEANUP
    && StatusOk(log[at].reply) && CleanedUp(log[at + 1].reply) && Acceptable(log[at].reply[2..])
  }

  /** append_new_image: success exactly when both updates were sent and the second took an image; then the result holds
      what that reply carried, and otherwise what it held before. */
  method AppendNewImage(d: Device, usb: Interrupts, r: EnrollResult) returns (ok: bool, ghost messages: seq<Message>)
    requires d.store.Valid()
    modifies d, usb, r
    ensures d.store == old(d.store) && Brackets(old(d.log), d.log, UPDATE_OPS)
    ensures Sent(old(d.log), d.log, messages) && Appending(messages, App(UpdateBytes(old(r.template))))
    ensures ok <==> |messages| == 6 && TookImage(d.log, |d.log| - 2)
    ensures ok ==> Stored(r, d.log[|d.log| - 2].reply[4..])
    ensures !ok ==> unchanged(r)
  {
    hide Brackets, Acceptable, Stored, UpdateBytes;
    ghost var log := d.log;
    var prev := r.template;
    ghost var update := App(UpdateBytes(prev));
    UpdateIsUpdate(prev);
    var first, res;
    ok, first := EnrollmentUpdate(d, prev);
    messages := [WriteEnable, update, CLEANUP][..|d.log| - |log|];
    if !ok { return; }
    var w := usb.Next();
    if !w.Interrupt? { ok := false; return; }
    ghost var said := d.log;
    ok, res := EnrollmentUpdate(d, prev);
    Continued(log, said, d.log, UPDATE_OPS);
    messages := messages + [WriteEnable, update, CLEANUP][..|d.log| - |said|];
    if !ok { return; }
    AcceptableHasLength(res);
    ok := TakeReply(res, r);
    if ok { assert res[2..] == d.log[|d.log| - 2].reply[4..]; }
  }

  lemma UpdateIsUpdate(prev: bytes)
    ensures IsUpdate(App(UpdateBytes(prev)))
  {
  }

  lemma AcceptableHasLength(reply: bytes)
    ensures Acceptable(reply) ==> 2 <= |reply| < U16_SIZE + 2
  {
  }

  function StartBytes(key: nat): bytes { [0x68] + U32(key) + U32(0) }

  /** enrollment_update_start: success exactly when the reply holds a key, which is returned, and an interrupt
      follows. */
  method UpdateStart(d: Device, usb: Interrupts, key: nat) returns (ok: bool, newKey: nat)
    requires d.store.Valid()
    modifies d, usb
    ensures d.store == old(d.store) && Asks(old(d.log), d.log) && Sent(old(d.log), d.log, [App(StartBytes(key))])
    ensures var rsp := d.log[|old(d.log)|].reply;
            && (ok <==> StatusOk(rsp) && |rsp| == 6 && old(usb.pending) != [] && old(usb.pending)[0].Interrupt?)
            && newKey == if ok then Rd32(rsp, 2) else key
  {
    hide Asks;
    var rsp;
    ok, rsp := SimpleApp(d, StartBytes(key), 64);
    if !ok || |rsp| != 2 + 4 { return false, key; }
    var w := usb.Next();
    if !w.Interrupt? { return false, key; }
    return true, Rd32(rsp, 2);
  }

  const END: Message := App([0x69, 0, 0, 0, 0])

  method EnrollmentFlag(d: Device, v: nat) returns (ok: bool)
    requires d.store.Valid() && v < 256
    modifies d
    ensures d.store == old(d.store) && Asks(old(d.log), d.log) && Sent(old(d.log), d.log, [App([0x69, v, 0, 0, 0])])
  {
    hide Asks;
    var rsp;
    assert U32(v) == [v, 0, 0, 0];
    ok, rsp := SimpleApp(d, [0x69] + U32(v), 512);
  }

  /** The LED patterns differ only in bytes the model has no use for. */
  const LIGHT: Message := App([0x39] + Zeros(124))

  method Glow(d: Device)
    requires d.store.Valid()
    modifies d
    ensures d.store == old(d.store) && Asks(old(d.log), d.log) && Sent(old(d.log), d.log, [LIGHT])
  {
    hide Asks;
    PlainCommands();
    var _, _ := SimpleApp(d, LIGHT.cmd, 512);
  }

  // ---------- what a sensor may answer ----------

  function EmptyTemplate(): bytes { U16(0) + U16(0) + Zeros(MAGIC - 4) }

  function ShortId(): bytes { U16(3) + U16(1) + Zeros(MAGIC - 4) + [7] }

  /** The device can give every answer an enrollment needs: a good scan, a key, and an image with an id. */
  lemma DeviceCanEnroll(limit: nat, store: Store, spare: nat, key: nat, prev: bytes)
    returns (scan: bytes, newKey: bytes, image: bytes)
    ensures var (after, rsp) := Serve(limit, store, Decode(App(STATUS2)), spare, scan);
            after == store && GoodScan(rsp)
    ensures var (after, rsp) := Serve(limit, store, Decode(App(StartBytes(key))), spare, newKey);
            after == store && StatusOk(rsp) && |rsp| == 6
    ensures var (after, rsp) := Serve(limit, store, Decode(App(UpdateBytes(prev))), spare, image);
            after == store && CarriesImage(rsp)
  {
    hide GoodScan, CarriesImage, Decode;
    scan, newKey, image := U32(12) + Zeros(12), U32(0), U16(2 * MAGIC + 1) + (EmptyTemplate() + ShortId());
    PlainCommands();
    UpdatesAreOthers(key, prev);
    ScanIsGood();
    KeyIsGood();
    ImageIsGood();
  }

  /** The reply to an update that completes an enrollment. */
  ghost predicate CarriesImage(rsp: bytes) {
    StatusOk(rsp) && Acceptable(rsp[2..]) && exists records :: Good(rsp[4..], records) && TidOf(records) != []
  }

  lemma UpdatesAreOthers(key: nat, prev: bytes)
    ensures Decode(App(StartBytes(key))) == OtherCmd && Decode(App(UpdateBytes(prev))) == OtherCmd
  {
  }

  lemma ScanIsGood()
    ensures GoodScan(U16(0) + (U32(12) + Zeros(12)))
  {
    assert U32(12) == [12, 0, 0, 0];
  }

  lemma KeyIsGood()
    ensures StatusOk(U16(0) + U32(0)) && |U16(0) + U32(0)| == 6
  {
  }

  lemma ImageIsGood()
    ensures CarriesImage(U16(0) + (U16(2 * MAGIC + 1) + (EmptyTemplate() + ShortId())))
  {
    hide EmptyTemplate, ShortId, IsRecord, Good, TidOf, Tag;
    RecordsAreRecords();
    var body := EmptyTemplate() + ShortId();
    TwoRecords(EmptyTemplate(), ShortId());
    LengthLeads(body);
    var rsp := U16(0) + (U16(2 * MAGIC + 1) + body);
    assert rsp[2..] == U16(2 * MAGIC + 1) + body && rsp[4..] == body && rsp[2..][2..] == body;
    assert Good(rsp[4..], [EmptyTemplate(), ShortId()]);
  }

  lemma LengthLeads(body: bytes)
    requires |body| == 2 * MAGIC + 1
    ensures StatusOk(U16(0) + (U16(2 * MAGIC + 1) + body)) && Rd16(U16(2 * MAGIC + 1) + body, 0) == |body|
  {
    assert U16(2 * MAGIC + 1) == [0x71, 0];
  }

  lemma RecordsAreRecords()
    ensures IsRecord(EmptyTemplate()) && Tag(EmptyTemplate()) == 0 && |EmptyTemplate()| == MAGIC
    ensures IsRecord(ShortId()) && Tag(ShortId()) == 3 && |ShortId()| == MAGIC + 1
  {
    assert U16(0) == [0, 0] && U16(3) == [3, 0] && U16(1) == [1, 0];
  }

  lemma TwoRecords(template: bytes, id: bytes)
    requires IsRecord(template) && Tag(template) == 0
    requires IsRecord(id) && Tag(id) == 3 && MAGIC < |id| <= MAGIC + TID_MAX
    ensures Good(template + id, [template, id]) && TidOf([template, id]) != []
  {
    hide IsRecord, Tag;
    var records := [template] + [id];
    assert records == [template, id] && [template] == [] + [template];
    LastWithSnoc([], template, 0);
    LastWithSnoc([template], id, 0);
    LastWithSnoc([template], id, 3);
    FlattenSnoc([template], id);
    assert Flatten([template]) == template + Flatten([]) == template;
  }

  // ---------- the enrollment loop ----------

  /** When the loop has had enough: all attempts used, or four bad ones in a row. */
  predicate GaveUp(outcomes: seq<bool>) {
    || |outcomes| >= MAX_ATTEMPTS
    || (|outcomes| >= MAX_BAD_IN_A_ROW && forall i :: |outcomes| - MAX_BAD_IN_A_ROW <= i < |outcomes| ==> !outcomes[i])
  }

  /** What one pass of the loop can have sent before its end. */
  ghost predicate Touching(messages: seq<Message>, capture: bytes, rest: seq<Message>, key: nat, update: Message) {
    if capture == [] then messages == [LIGHT]
    else
      || messages == [LIGHT, App(capture), App(STOP)]
      || messages == [LIGHT, App(capture), App(STATUS2), App(STOP)]
      || (messages == [LIGHT, App(capture), App(STATUS2), App(STOP), App(StartBytes(key))] + rest
          && Appending(rest, update))
  }

  /** One touch: capture, update start, new image. It succeeds exactly when the last thing it sent was the second of two
      updates and took an image, and then the result holds that reply. */
  method Touch(d: Device, usb: Interrupts, k: Kernels, factory: bytes, calib: bytes, key: nat, r: EnrollResult)
    returns (ok: bool, newKey: nat, ghost messages: seq<Message>, ghost rest: seq<Message>)
    requires d.store.Valid() && k.linesPerFrame.Some?
    modifies d, usb, r
    ensures d.store == old(d.store) && Brackets(old(d.log), d.log, UPDATE_OPS)
    ensures Sent(old(d.log), d.log, messages)
    ensures Touching(messages, BuildCapture(k, Enrolling, k.linesPerFrame.value, factory, calib), rest, key,
                     App(UpdateBytes(old(r.template))))
    ensures ok <==> |messages| == 11 && TookImage(d.log, |d.log| - 2)
    ensures ok ==> Stored(r, d.log[|d.log| - 2].reply[4..])
    ensures !ok ==> unchanged(r)
  {
    hide Brackets, Asks, BuildCapture, CaptureRow, GoodScan, Stored, TookImage, Appending, UpdateBytes, StartBytes;
    ghost var log := d.log;
    ghost var cmd := BuildCapture(k, Enrolling, k.linesPerFrame.value, factory, calib);
    ok, newKey, rest := false, key, [];
    Glow(d);
    ghost var said := d.log;
    var cap, _, _ := CaptureMode(d, usb, k, Enrolling, factory, calib);
    AskedOn(log, said, d.log);
    OnlyAsked(log, d.log, UPDATE_OPS);
    messages := if cmd == [] then [LIGHT] else if |d.log| == |log| + 3 then [LIGHT, App(cmd), App(STOP)]
                else [LIGHT, App(cmd), App(STATUS2), App(STOP)];
    if cap == Captured {
      said := d.log;
      var started;
      started, newKey := UpdateStart(d, usb, key);
      OnlyAsked(said, d.log, UPDATE_OPS);
      Continued(log, said, d.log, UPDATE_OPS);
      messages := messages + [App(StartBytes(key))];
      NothingAppended(App(UpdateBytes(r.template)));
      assert messages == messages + rest;
      if started {
        said := d.log;
        ok, rest := AppendNewImage(d, usb, r);
        Continued(log, said, d.log, UPDATE_OPS);
        messages := messages + rest;
      }
    }
  }

  lemma NothingAppended(update: Message)
    ensures Appending([], update)
  {
  }

  /** One attempt as the log shows it, from the light to the end of the update: one capture if it can be sent at all,
      one end, and success exactly when the last two updates stand before the end and the second took an image. */
  ghost predicate Attempt(before: Log, after: Log, capture: bytes, ok: bool) {
    var n := |before|;
    && before <= after && |after| >= n + 2
    && after[n].sent == LIGHT && after[|after| - 1].sent == END
    && (forall i :: n <= i < |after| - 1 ==> after[i].sent != END)
    && (capture != [] ==> after[n + 1].sent == App(capture))
    && (forall i :: n <= i < |after| && i != n + 1 ==> after[i].sent != App(capture))
    && (ok <==> |after| >= n + 7 && IsUpdate(after[|after| - 6].sent) && TookImage(after, |after| - 3))
  }

  lemma AttemptMade(before: Log, middle: Log, after: Log, messages: seq<Message>, rest: seq<Message>, k: Kernels,
                    linesPerFrame: nat, factory: bytes, calib: bytes, key: nat, prev: bytes, ok: bool)
    requires Sent(before, middle, messages) && Sent(middle, after, [END])
    requires Touching(messages, BuildCapture(k, Enrolling, linesPerFrame, factory, calib), rest, key,
                      App(UpdateBytes(prev)))
    requires ok <==> |messages| == 11 && TookImage(middle, |middle| - 2)
    ensures Attempt(before, after, BuildCapture(k, Enrolling, linesPerFrame, factory, calib), ok)
  {
    hide BuildCapture, Touching, TookImage;
    var capture := BuildCapture(k, Enrolling, linesPerFrame, factory, calib);
    CaptureStandsOut(k, linesPerFrame, factory, calib);
    MessagesOfTouch(messages, capture, rest, key, prev);
    var n, len := |before|, |messages|;
    assert forall i :: n <= i < |middle| ==> after[i].sent == messages[i - n];
    assert after[|middle|].sent == END && |after| == n + len + 1;
    if len >= 6 {
      assert after[|after| - 6].sent == messages[len - 5] && after[|after| - 3].sent == messages[len - 2];
    }
    if len == 11 { ImageStays(middle, after, |middle| - 2); }
    if len >= 6 { TookByUpdate(after, |after| - 3); }
  }

  lemma TookByUpdate(log: Log, at: nat)
    ensures TookImage(log, at) ==> at + 1 < |log| && IsUpdate(log[at].sent)
  {
  }

  lemma ImageStays(log: Log, after: Log, at: int)
    requires log <= after && 0 <= at && at + 1 < |log|
    ensures TookImage(log, at) == TookImage(after, at)
  {
    hide Acceptable;
  }

  /** Told apart by their first bytes: the light first, the capture second, no end, and two updates only at full
      length. */
  lemma MessagesOfTouch(messages: seq<Message>, capture: bytes, rest: seq<Message>, key: nat, prev: bytes)
    requires Touching(messages, capture, rest, key, App(UpdateBytes(prev))) && (capture == [] || capture[0] == 2)
    ensures 1 <= |messages| <= 11 && messages[0] == LIGHT && END !in messages
    ensures capture != [] ==> |messages| > 1 && messages[1] == App(capture)
    ensures forall i :: 0 <= i < |messages| && i != 1 ==> messages[i] != App(capture)
    ensures App(capture) != END
    ensures |messages| == 11 <==>
            |messages| >= 6 && IsUpdate(messages[|messages| - 5]) && IsUpdate(messages[|messages| - 2])
  {
    hide Appending;
    var update := App(UpdateBytes(prev));
    if capture != [] && messages != [LIGHT, App(capture), App(STOP)]
      && messages != [LIGHT, App(capture), App(STATUS2), App(STOP)]
    {
      MessagesAppended(rest, prev, capture);
      assert forall i :: 5 <= i < |messages| ==> messages[i] == rest[i - 5] && messages[i] in rest;
      assert App(StartBytes(key)).cmd[0] == 0x68;
    }
  }

  lemma MessagesAppended(rest: seq<Message>, prev: bytes, capture: bytes)
    requires Appending(rest, App(UpdateBytes(prev))) && capture != [] && capture[0] == 2
    ensures |rest| <= 6 && forall m :: m in rest ==> m != END && m != App(capture)
    ensures |rest| == 6 ==> IsUpdate(rest[1]) && IsUpdate(rest[4])
    ensures 0 < |rest| < 6 ==> !(|rest| >= 2 && IsUpdate(rest[|rest| - 2])) || |rest| == 3
  {
    var update := App(UpdateBytes(prev));
    assert update.cmd[0] == 0x6b && CLEANUP.cmd[0] == 0x1a && END.cmd[0] == 0x69;
    assert forall m :: m in rest ==> m == WriteEnable || m == update || m == CLEANUP;
  }

  lemma CaptureStandsOut(k: Kernels, linesPerFrame: nat, factory: bytes, calib: bytes)
    ensures var capture := BuildCapture(k, Enrolling, linesPerFrame, factory, calib); capture == [] || capture[0] == 2
  {
  }

  /** One pass of the loop. */
  method Pass(d: Device, usb: Interrupts, k: Kernels, factory: bytes, calib: bytes, key: nat, r: EnrollResult)
    returns (ok: bool, newKey: nat)
    requires d.store.Valid() && k.linesPerFrame.Some?
    modifies d, usb, r
    ensures d.store == old(d.store) && Brackets(old(d.log), d.log, UPDATE_OPS)
    ensures Attempt(old(d.log), d.log, BuildCapture(k, Enrolling, k.linesPerFrame.value, factory, calib), ok)
    ensures ok && r.tid != [] ==> HoldsImage(r, old(d.log), d.log, |d.log| - 3)
    ensures !ok ==> unchanged(r)
  {
    hide Brackets, Asks, Attempt, Touching, BuildCapture, Stored, TookImage, UpdateBytes, HoldsImage;
    ghost var log, prev := d.log, r.template;
    ghost var messages, rest;
    ok, newKey, messages, rest := Touch(d, usb, k, factory, calib, key, r);
    ghost var touched := d.log;
    var _ := EnrollmentFlag(d, 0);
    OnlyAsked(touched, d.log, UPDATE_OPS);
    Continued(log, touched, d.log, UPDATE_OPS);
    AttemptMade(log, touched, d.log, messages, rest, k, k.linesPerFrame.value, factory, calib, key, prev, ok);
    if ok { ImageHeld(r, log, log, touched, d.log); }
  }

  /** The loop of enroll_impl: it goes on exactly until a touch completes the enrollment or it has had enough. `marks`
      says where in the log each attempt begins and ends, and `outcomes` which of them succeeded; both are what the log
      shows. A completed enrollment holds the reply of its very last update, and that carried an id. */
  method EnrollLoop(d: Device, usb: Interrupts, k: Kernels, factory: bytes, calib: bytes, r: EnrollResult)
    returns (done: bool, attempts: nat, good: nat, ghost outcomes: seq<bool>, ghost marks: seq<nat>)
    requires d.store.Valid() && k.linesPerFrame.Some?
    requires r.template == [] && r.tid == []
    modifies d, usb, r
    ensures d.store == old(d.store) && Brackets(old(d.log), d.log, UPDATE_OPS)
    ensures |outcomes| == attempts <= MAX_ATTEMPTS && good == Successes(outcomes)
    ensures Attempts(old(d.log), d.log, BuildCapture(k, Enrolling, k.linesPerFrame.value, factory, calib),
                     outcomes, marks)
    ensures forall n :: 0 <= n < attempts ==> !GaveUp(outcomes[..n])
    ensures if done then attempts > 0 && outcomes[attempts - 1] && HoldsImage(r, old(d.log), d.log, |d.log| - 3)
            else GaveUp(outcomes) && r.tid == []
  {
    hide Brackets, Attempts, HoldsImage, BuildCapture, GaveUp, BadAtEnd, Successes;
    ghost var log := d.log;
    ghost var capture := BuildCapture(k, Enrolling, k.linesPerFrame.value, factory, calib);
    NothingSaid(log, UPDATE_OPS);
    var key, badInARow := 0, 0;
    done, attempts, good, outcomes, marks := false, 0, 0, [], [|log|];
    NoAttempts(log, capture);
    while !done && attempts < MAX_ATTEMPTS && badInARow < MAX_BAD_IN_A_ROW
      invariant d.store == old(d.store) && log == old(d.log) && Brackets(log, d.log, UPDATE_OPS)
      invariant |outcomes| == attempts <= MAX_ATTEMPTS && good == Successes(outcomes) && BadAtEnd(outcomes, badInARow)
      invariant Attempts(log, d.log, capture, outcomes, marks)
      invariant forall n :: 0 <= n < attempts ==> !GaveUp(outcomes[..n])
      invariant if done then attempts > 0 && outcomes[attempts - 1] && HoldsImage(r, log, d.log, |d.log| - 3)
                else r.tid == []
    {
      GivesUpIff(outcomes, badInARow);
      attempts := attempts + 1;
      ghost var begun, before := d.log, outcomes;
      var ok;
      ok, key := Pass(d, usb, k, factory, calib, key, r);
      OneMoreAttempt(log, begun, d.log, capture, before, marks, ok);
      Continued(log, begun, d.log, UPDATE_OPS);
      if ok {
        good := good + 1;
        if |r.tid| > 0 {
          done := true;
          AttemptsGrow(log, begun, capture, before, marks);
          HeldSince(r, log, begun, d.log, |d.log| - 3);
        }
      }
      OneMoreOutcome(before, badInARow, ok);
      badInARow := if ok then 0 else badInARow + 1;
      outcomes, marks := outcomes + [ok], marks + [|d.log|];
    }
    GivesUpIff(outcomes, badInARow);
  }

  /** The counter says how many bad touches the row ends in. */
  predicate BadAtEnd(outcomes: seq<bool>, bad: nat) {
    && bad <= |outcomes| && (forall i :: |outcomes| - bad <= i < |outcomes| ==> !outcomes[i])
    && (bad < |outcomes| ==> outcomes[|outcomes| - bad - 1])
  }

  lemma GivesUpIff(outcomes: seq<bool>, bad: nat)
    requires BadAtEnd(outcomes, bad)
    ensures GaveUp(outcomes) <==> |outcomes| >= MAX_ATTEMPTS || bad >= MAX_BAD_IN_A_ROW
  {
  }

  lemma OneMoreOutcome(before: seq<bool>, bad: nat, ok: bool)
    requires BadAtEnd(before, bad)
    ensures BadAtEnd(before + [ok], if ok then 0 else bad + 1)
    ensures Successes(before + [ok]) == Successes(before) + if ok then 1 else 0
    ensures forall n :: 0 <= n <= |before| ==> (before + [ok])[..n] == before[..n]
    ensures before[..|before|] == before
  {
    hide BadAtEnd, Successes;
    OneMoreAtEnd(before, bad, ok);
    OneMoreSuccess(before, ok);
  }

  lemma OneMoreAtEnd(before: seq<bool>, bad: nat, ok: bool)
    requires BadAtEnd(before, bad)
    ensures BadAtEnd(before + [ok], if ok then 0 else bad + 1)
  {
  }

  lemma OneMoreSuccess(before: seq<bool>, ok: bool)
    ensures Successes(before + [ok]) == Successes(before) + if ok then 1 else 0
  {
    assert (before + [ok])[..|before|] == before;
  }

  lemma NoAttempts(log: Log, capture: bytes)
    ensures Attempts(log, log, capture, [], [|log|]) && Successes([]) == 0 && BadAtEnd([], 0)
  {
  }

  lemma AttemptsGrow(log: Log, after: Log, capture: bytes, outcomes: seq<bool>, marks: seq<nat>)
    requires Attempts(log, after, capture, outcomes, marks)
    ensures log <= after
  {
    hide Attempt;
  }

  function Successes(outcomes: seq<bool>): nat {
    if outcomes == [] then 0 else Successes(outcomes[..|outcomes| - 1]) + if outcomes[|outcomes| - 1] then 1 else 0
  }

  /** The new part of the log is a row of attempts with these outcomes and nothing else. */
  ghost predicate Attempts(before: Log, after: Log, capture: bytes, outcomes: seq<bool>, marks: seq<nat>) {
    && |marks| == |outcomes| + 1 && marks[0] == |before| && marks[|outcomes|] == |after| && before <= after
    && (forall i :: 0 <= i <= |outcomes| ==> |before| <= marks[i] <= |after|)
    && (forall i :: 0 <= i < |outcomes| ==> Attempt(after[..marks[i]], after[..marks[i + 1]], capture, outcomes[i]))
  }

  lemma OneMoreAttempt(log: Log, before: Log, after: Log, capture: bytes, outcomes: seq<bool>,
                       marks: seq<nat>, ok: bool)
    requires Attempts(log, before, capture, outcomes, marks) && Attempt(before, after, capture, ok)
    ensures Attempts(log, after, capture, outcomes + [ok], marks + [|after|])
  {
    hide Attempt;
    AttemptGrows(before, after, capture, ok);
    var more, ends := outcomes + [ok], marks + [|after|];
    forall i | 0 <= i < |more| ensures Attempt(after[..ends[i]], after[..ends[i + 1]], capture, more[i]) {
      if i < |outcomes| {
        assert after[..marks[i]] == before[..marks[i]] && after[..marks[i + 1]] == before[..marks[i + 1]];
      } else {
        assert after[..ends[i]] == before && after[..ends[i + 1]] == after;
      }
    }
  }

  lemma AttemptGrows(before: Log, after: Log, capture: bytes, ok: bool)
    requires Attempt(before, after, capture, ok)
    ensures before <= after
  {
  }

  /** The result holds what the exchange at `at` carried: the last update since `from`, answered with an image whose id
      is not empty. */
  ghost predicate HoldsImage(r: EnrollResult, from: Log, log: Log, at: int)
    reads r
  {
    && |from| <= at && TookImage(log, at) && (forall i :: at < i < |log| ==> !IsUpdate(log[i].sent))
    && Stored(r, log[at].reply[4..]) && r.tid != []
  }

  lemma ImageHeld(r: EnrollResult, log: Log, begun: Log, touched: Log, after: Log)
    requires log <= begun <= touched && |touched| >= |begun| + 6 && TookImage(touched, |touched| - 2)
    requires Stored(r, touched[|touched| - 2].reply[4..]) && Sent(touched, after, [END])
    ensures r.tid != [] ==> HoldsImage(r, log, after, |after| - 3)
  {
    hide Acceptable, Stored;
    assert touched[|touched| - 1].sent == CLEANUP;
  }

  /** Later questions and records leave that so. */
  lemma StillHeld(r: EnrollResult, from: Log, log: Log, after: Log, at: int)
    requires HoldsImage(r, from, log, at) && Brackets(log, after, RECORD_OPS)
    ensures HoldsImage(r, from, after, at)
  {
    hide Acceptable, Stored;
  }

  // ---------- a whole run ----------

  /** The security identifier HTID stores its user under. */
  function HtidIdentity(): (id: bytes)
    ensures |id| == 0x4c
  {
    U32(3) + U32(28) + [1, 5, 0, 0, 0, 0, 0, 5]
    + U32(21) + U32(0x48544944) + U32(0) + U32(0) + U32(1000) + Zeros(0x4c - 36)
  }

  function UserBytes(dbid: nat): bytes { [0x4a] + U16(dbid) + U16(0) + U16(0) }

  /** get_user, whose reply nothing here depends on. */
  method GetUser(d: Device, dbid: nat)
    requires d.store.Valid() && 0 < dbid < U16_SIZE
    modifies d
    ensures d.store == old(d.store) && Asks(old(d.log), d.log)
  {
    hide Asks;
    UserDecodes(dbid);
    var _, _ := SimpleApp(d, UserBytes(dbid), REPLY_MAX);
  }

  lemma UserDecodes(dbid: nat)
    requires 0 < dbid < U16_SIZE
    ensures Decode(App(UserBytes(dbid))) == OtherCmd
  {
    FieldAt16([0x4a], dbid, U16(0) + U16(0));
    assert UserBytes(dbid) == [0x4a] + U16(dbid) + (U16(0) + U16(0));
  }

  method GetUsers(d: Device, ids: seq<nat>)
    requires d.store.Valid() && forall i :: 0 <= i < |ids| ==> 0 < ids[i] < U16_SIZE
    modifies d
    ensures d.store == old(d.store) && Asks(old(d.log), d.log)
  {
    hide Asks;
    ghost var log := d.log;
    NothingSaid(log, {});
    var i := 0;
    while i < |ids|
      invariant d.store == old(d.store) && log == old(d.log) && Asks(log, d.log)
    {
      ghost var said := d.log;
      GetUser(d, ids[i]);
      AskedOn(log, said, d.log);
      i := i + 1;
    }
  }

  /** mmis_db_list: how many users the sensor has. */
  method ListUsers(d: Device) returns (ok: bool, count: nat)
    requires d.store.Valid()
    modifies d
    ensures d.store == old(d.store) && Asks(old(d.log), d.log)
    ensures ok ==> count == |d.store.Users()|
  {
    hide Asks;
    ghost var log := d.log;
    var _ := DbInfo(d);
    OneQuestion(log, d.log, {});
    ghost var said := d.log;
    StorageNeedsNoBracket(STORAGE_NAME);
    var rc, stg := GetUserStorage(d, STORAGE_NAME);
    OneQuestion(said, d.log, {});
    AskedOn(log, said, d.log);
    if rc == Database.Failed { return false, 0; }
    if rc == No { return true, 0; }
    said := d.log;
    GetUsers(d, stg.users);
    AskedOn(log, said, d.log);
    return true, stg.userCount;
  }

  /** How the run was started and what the person answered about the prints already there. */
  datatype Caller = Plain | AskedToReplace(yes: bool) | AskedWhatToDo(answer: Answer)

  datatype Answer = Cancel | Replace | Keep

  datatype Result = Enrolled | Cancelled | EnrollFailed

  predicate Declines(caller: Caller, users: nat) {
    (caller.AskedWhatToDo? && caller.answer == Cancel) || (caller.AskedToReplace? && !caller.yes && users > 0)
  }

  predicate Wipes(caller: Caller, users: nat) {
    users > 0 && ((caller.AskedWhatToDo? && caller.answer == Replace) || (caller.AskedToReplace? && caller.yes))
  }

  /** The first part of enroll_impl: list the prints, ask, and wipe them if that is the answer; `Enrolled` stands for
      going on with the enrollment. */
  method Prepare(d: Device, caller: Caller) returns (r: Result)
    requires d.store.Valid()
    modifies d
    ensures d.store.Valid() && Asks(old(d.log), d.log)
    ensures exists n: nat :: n <= |old(d.store).Users()| && d.store.Users() == old(d.store).Users()[n..]
    ensures r == Enrolled ==>
              d.store.Users() == if Wipes(caller, |old(d.store).Users()|) then [] else old(d.store).Users()
    ensures r == Cancelled ==> Declines(caller, |old(d.store).Users()|)
    ensures r == Cancelled || !Wipes(caller, |old(d.store).Users()|) ==> d.store == old(d.store)
  {
    hide Asks;
    ghost var users, log := d.store.Users(), d.log;
    assert users == users[0..];
    var listed, count := ListUsers(d);
    if !listed { return EnrollFailed; }
    if caller.AskedWhatToDo? && count > 0 {
      ghost var said := d.log;
      StorageNeedsNoBracket(STORAGE_NAME);
      var rc, stg := GetUserStorage(d, STORAGE_NAME);
      OneQuestion(said, d.log, {});
      AskedOn(log, said, d.log);
      if rc == Database.Failed { return EnrollFailed; }
      if rc == Yes {
        said := d.log;
        GetUsers(d, stg.users);
        AskedOn(log, said, d.log);
      }
    }
    if Declines(caller, count) { return Cancelled; }
    if Wipes(caller, count) {
      ghost var said := d.log;
      var wiped, _ := WipeUsers(d);
      AskedOn(log, said, d.log);
      if !wiped { return EnrollFailed; }
    }
    return Enrolled;
  }

  /** What an enrollment leaves of the users it found or kept: on success exactly one more finger, of the user with
      HTID's identity, who is new only if there was none; otherwise as much of that as was done, or nothing. */
  ghost predicate Leaves(kept: seq<User>, users: seq<User>, record: bytes, success: bool) {
    || Saving(kept, users, HtidIdentity(), record, true)
    || (!success && (users == kept || Saving(kept, users, HtidIdentity(), record, false)))
  }

  /** The record is made of the template and id that the exchange at `at` carried, the last update of the run, and it
      comes apart into just those. */
  ghost predicate MadeFrom(record: bytes, subtype: nat, from: Log, log: Log, at: int) {
    && |from| <= at && TookImage(log, at) && (forall i :: at < i < |log| ==> !IsUpdate(log[i].sent))
    && exists records ::
         && Good(log[at].reply[4..], records) && TidOf(records) != []
         && record == FingerRecord(subtype, TemplateOf(records), TidOf(records))
         && RoundTrips(subtype, TemplateOf(records), TidOf(records))
  }

  lemma StoredRecords(r: EnrollResult, body: bytes) returns (records: seq<bytes>)
    requires Stored(r, body)
    ensures Good(body, records) && r.template == TemplateOf(records) && r.tid == TidOf(records)
  {
    records :| Good(body, records) && Holds(r, records);
  }

  /** The record of a result in hand. */
  lemma RecordIsMade(r: EnrollResult, subtype: nat, from: Log, log: Log, at: int)
    requires HoldsImage(r, from, log, at) && subtype < U16_SIZE
    ensures MadeFrom(FingerRecord(subtype, r.template, r.tid), subtype, from, log, at)
  {
    hide FingerRecord, RoundTrips, Acceptable;
    var reply := log[at].reply;
    AcceptableHasLength(reply[2..]);
    assert reply[2..][2..] == reply[4..];
    var records := StoredRecords(r, reply[4..]);
    AcceptedFitsRecord(reply[4..], records, subtype);
  }

  /** The last part of enroll_impl: build the record and save it. */
  method Save(d: Device, subtype: nat, r: EnrollResult) returns (saved: SaveResult)
    requires d.store.Valid() && subtype < U16_SIZE
    modifies d
    ensures d.store.Valid() && Brackets(old(d.log), d.log, RECORD_OPS)
    ensures Leaves(old(d.store).Users(), d.store.Users(), FingerRecord(subtype, r.template, r.tid), saved.Saved?)
    ensures saved.Saved? ==> WentWell(old(d.log), d.log, MUTATIONS)
  {
    hide Brackets, WentWell, FingerRecord, Saving, HtidIdentity;
    NothingSaid(d.log, RECORD_OPS);
    var tinfo := new byte[RECORD_MAX];
    var len := MakeFingerData(subtype, r.template, r.tid, tinfo);
    if len == 0 { return Unsaved; }
    saved := SavePrint(d, HtidIdentity(), tinfo[..len]);
  }

  predicate KeepsFingers(before: seq<User>, after: seq<User>) {
    |before| <= |after| && forall i :: 0 <= i < |before| ==>
      after[i].identity == before[i].identity && before[i].fingers <= after[i].fingers
  }

  /** The middle of enroll_impl: calibrate, and touch until the template is complete. No record changes. */
  method CaptureTemplate(d: Device, usb: Interrupts, k: Kernels, bulk: seq<Option<bytes>>, r: EnrollResult)
    returns (done: bool, ghost at: int)
    requires d.store.Valid() && |bulk| == 4 && r.template == [] && r.tid == []
    modifies d, usb, r
    ensures d.store.Valid() && Brackets(old(d.log), d.log, MUTATIONS) && d.store.db == old(d.store).db
    ensures done ==> HoldsImage(r, old(d.log), d.log, at) && WentWell(old(d.log), d.log, LASTING)
  {
    hide Asks, Brackets, WentWell, HoldsImage, GaveUp, Attempts, Usable, DecodeSlate, FrameOf, CalibrationData;
    ghost var log := d.log;
    at := 0;
    NothingSaid(log, MUTATIONS);
    LastingWentWell(log, log);
    if k.linesPerFrame.None? { return false, 0; }
    var factory := FactoryValues(d, k);
    OnlyAsked(log, d.log, MUTATIONS);
    LastingWentWell(log, d.log);
    if factory.None? { return false, 0; }
    var calib := new byte[CALIB_MAX];
    ghost var said := d.log;
    var calibrated, calibLen := DoCalibrate(d, k, bulk, calib);
    OfMoreKinds(said, d.log, FLASH_OPS, MUTATIONS);
    Continued(log, said, d.log, MUTATIONS);
    if !calibrated { return false, 0; }
    LastingWentWell(said, d.log);
    LastingContinued(log, said, d.log);
    said := d.log;
    var created := EnrollmentFlag(d, 1);
    Questions(log, said, d.log);
    if !created { return false, 0; }
    said := d.log;
    var attempts, good;
    ghost var outcomes, marks;
    done, attempts, good, outcomes, marks := EnrollLoop(d, usb, k, factory.value, calib[..calibLen], r);
    OfMoreKinds(said, d.log, UPDATE_OPS, MUTATIONS);
    Continued(log, said, d.log, MUTATIONS);
    LastingWentWell(said, d.log);
    LastingContinued(log, said, d.log);
    at := |d.log| - 3;
    ghost var begun := said;
    said := d.log;
    if !done {
      Glow(d);
      Questions(log, said, d.log);
      return false, 0;
    }
    var _ := EnrollmentFlag(d, 0);
    Questions(log, said, d.log);
    OnlyAsked(said, d.log, RECORD_OPS);
    StillHeld(r, begun, said, d.log, at);
    HeldSince(r, log, begun, d.log, at);
  }

  /** Questions after what was said so far. */
  lemma Questions(log: Log, said: Log, after: Log)
    requires Brackets(log, said, MUTATIONS) && Asks(said, after)
    ensures Brackets(log, after, MUTATIONS) && (WentWell(log, said, LASTING) ==> WentWell(log, after, LASTING))
  {
    OnlyAsked(said, after, MUTATIONS);
    Continued(log, said, after, MUTATIONS);
    LastingWentWell(said, after);
    if WentWell(log, said, LASTING) { LastingContinued(log, said, after); }
  }

  lemma HeldSince(r: EnrollResult, log: Log, begun: Log, after: Log, at: int)
    requires HoldsImage(r, begun, after, at) && |log| <= |begun|
    ensures HoldsImage(r, log, after, at)
  {
    hide TookImage, Stored;
  }

  /** enroll_impl from the open session on, whatever the sensor and the person do. Every mutation is bracketed. The
      users found are kept, or wiped if the person asked for it, and of those kept every user keeps every finger. On
      success the users are then just those with one more finger, of the user with HTID's identity, and every erase,
      write and new record of the run and its cleanup went well. A record that is added, by a run that fails in the end
      too, is made of what the last update of this very run was answered with. A cancelled run changes nothing. */
  method Run(d: Device, usb: Interrupts, k: Kernels, bulk: seq<Option<bytes>>, caller: Caller, subtype: nat)
    returns (result: Result, ghost kept: seq<User>, ghost record: bytes, ghost at: int)
    requires d.store.Valid() && |bulk| == 4 && subtype < U16_SIZE
    modifies d, usb
    ensures d.store.Valid() && Brackets(old(d.log), d.log, MUTATIONS)
    ensures exists n: nat :: n <= |old(d.store).Users()| && kept == old(d.store).Users()[n..]
    ensures !Wipes(caller, |old(d.store).Users()|) ==> kept == old(d.store).Users()
    ensures result == Enrolled && Wipes(caller, |old(d.store).Users()|) ==> kept == []
    ensures Leaves(kept, d.store.Users(), record, result == Enrolled)
    ensures result == Enrolled || d.store.Users() != kept ==> MadeFrom(record, subtype, old(d.log), d.log, at)
    ensures result == Enrolled ==> WentWell(old(d.log), d.log, LASTING)
    ensures result == Cancelled ==> d.store == old(d.store) && Declines(caller, |old(d.store).Users()|)
    ensures OneUserPerIdentity(old(d.store).Users()) ==> OneUserPerIdentity(d.store.Users())
    ensures KeepsFingers(kept, d.store.Users())
  {
    hide Asks, Brackets, WentWell, Leaves, FingerRecord, MadeFrom, HoldsImage, OneUserPerIdentity, Wipes, Declines,
      KeepsFingers;
    ghost var before, log := d.store.Users(), d.log;
    record, at := [], 0;
    result := Prepare(d, caller);
    kept := d.store.Users();
    OnlyAsked(log, d.log, MUTATIONS);
    LastingWentWell(log, d.log);
    SuffixKeepsIdentitiesApart(before, kept);
    NothingLost(kept);
    if result != Enrolled { return; }
    ghost var said := d.log;
    var r := new EnrollResult();
    var done;
    done, at := CaptureTemplate(d, usb, k, bulk, r);
    Continued(log, said, d.log, MUTATIONS);
    assert d.store.Users() == kept;
    result := EnrollFailed;
    if !done { return; }
    LastingContinued(log, said, d.log);
    HeldSince(r, log, said, d.log, at);
    record := FingerRecord(subtype, r.template, r.tid);
    said := d.log;
    var saved := SaveAndReport(d, usb, caller, subtype, r);
    StillHeld(r, log, said, d.log, at);
    RecordIsMade(r, subtype, log, d.log, at);
    LeavesAreSafe(kept, d.store.Users(), record, saved);
    OfMoreKinds(said, d.log, RECORD_OPS, MUTATIONS);
    Continued(log, said, d.log, MUTATIONS);
    if saved {
      LastingWentWell(said, d.log);
      LastingContinued(log, said, d.log);
      result := Enrolled;
    }
  }

  /** The save, and what follows it: the light when the finger was refused; else a wait for the sensor's interrupt, the
      light, and for a plain enrollment a list. */
  method SaveAndReport(d: Device, usb: Interrupts, caller: Caller, subtype: nat, r: EnrollResult) returns (ok: bool)
    requires d.store.Valid() && subtype < U16_SIZE
    modifies d, usb
    ensures d.store.Valid() && Brackets(old(d.log), d.log, RECORD_OPS)
    ensures Leaves(old(d.store).Users(), d.store.Users(), FingerRecord(subtype, r.template, r.tid), ok)
    ensures ok ==> WentWell(old(d.log), d.log, MUTATIONS)
  {
    hide Asks, Brackets, WentWell, Leaves, FingerRecord;
    ghost var log := d.log;
    var saved := Save(d, subtype, r);
    if saved.Unsaved? { return false; }
    if saved.Saved? { var _ := usb.Next(); }
    ghost var said := d.log;
    Glow(d);
    OnlyAsked(said, d.log, RECORD_OPS);
    Continued(log, said, d.log, RECORD_OPS);
    if saved.Refused? { return false; }
    if caller.Plain? {
      said := d.log;
      var _, _ := ListUsers(d);
      OnlyAsked(said, d.log, RECORD_OPS);
      Continued(log, said, d.log, RECORD_OPS);
    }
    return true;
  }

  lemma LeavesAreSafe(kept: seq<User>, users: seq<User>, record: bytes, success: bool)
    requires Leaves(kept, users, record, success)
    ensures (OneUserPerIdentity(kept) ==> OneUserPerIdentity(users)) && KeepsFingers(kept, users)
  {
    hide Saving, HtidIdentity, OneUserPerIdentity;
    if Saving(kept, users, HtidIdentity(), record, true) { SaveIsSafe(kept, users, HtidIdentity(), record, true); }
    else if users != kept { SaveIsSafe(kept, users, HtidIdentity(), record, false); }
  }

  lemma NothingLost(users: seq<User>)
    ensures KeepsFingers(users, users) && forall record :: Leaves(users, users, record, false)
  {
  }

  lemma SuffixKeepsIdentitiesApart(before: seq<User>, after: seq<User>)
    requires exists n: nat :: n <= |before| && after == before[n..]
    ensures OneUserPerIdentity(before) ==> OneUserPerIdentity(after)
  {
    var n: nat :| n <= |before| && after == before[n..];
    assert forall i :: 0 <= i < |after| ==> after[i] == before[n + i];
  }
}
