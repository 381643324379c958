/** Flash access in chunks of 4 KB, each mutation between the write-enable blob and the cleanup. */
module Flash {
  import opened Bytes
  import opened Sensor

  const CHUNK := 0x1000

  // ---------- packed commands ----------

  function EraseBytes(partition: byte): bytes { [0x3f, partition] }

  function WriteHeader(partition: byte, addr: nat, size: nat): bytes {
    [0x41, partition, 1] + U16(0) + U32(addr) + U32(size)
  }

  function ReadBytes(partition: byte, addr: nat, size: nat): bytes {
    [0x40, partition, 1] + U16(0) + U32(addr) + U32(size)
  }

  /** A packed write is read back by the device as the write that was meant, as long as its length fits the field. */
  lemma WriteDecodes(partition: byte, addr: nat, data: bytes)
    requires |data| < U32_SIZE
    ensures Decode(App(WriteHeader(partition, addr, |data|) + data)) == WriteCmd(partition, addr % U32_SIZE, data)
  {
    hide U16, U32, Rd16, Rd32;
    var c := WriteHeader(partition, addr, |data|) + data;
    FieldAt16([0x41, partition, 1], 0, U32(addr) + U32(|data|) + data);
    FieldAt32([0x41, partition, 1] + U16(0), addr, U32(|data|) + data);
    FieldAt32([0x41, partition, 1] + U16(0) + U32(addr), |data|, data);
    assert c == [0x41, partition, 1] + U16(0) + (U32(addr) + U32(|data|) + data);
    assert c == [0x41, partition, 1] + U16(0) + U32(addr) + (U32(|data|) + data);
    assert c == [0x41, partition, 1] + U16(0) + U32(addr) + U32(|data|) + data;
    assert c[13..] == data;
  }

  lemma ReadDecodes(partition: byte, addr: nat, size: nat)
    ensures Decode(App(ReadBytes(partition, addr, size))) == ReadCmd(partition, addr % U32_SIZE, size % U32_SIZE)
  {
    hide U16, U32, Rd16, Rd32;
    var c := ReadBytes(partition, addr, size);
    FieldAt16([0x40, partition, 1], 0, U32(addr) + U32(size));
    FieldAt32([0x40, partition, 1] + U16(0), addr, U32(size));
    FieldAt32([0x40, partition, 1] + U16(0) + U32(addr), size, []);
    assert c == [0x40, partition, 1] + U16(0) + (U32(addr) + U32(size));
    assert c == [0x40, partition, 1] + U16(0) + U32(addr) + U32(size) + [];
  }

  // ---------- programming in pieces ----------

  /** Writing two adjoining pieces is writing them as one. */
  lemma ProgrammedInPieces(part: bytes, addr: nat, a: bytes, b: bytes)
    requires addr + |a| + |b| <= |part|
    ensures Programmed(Programmed(part, addr, a), addr + |a|, b) == Programmed(part, addr, a + b)
  {
  }

  /** On an erased range, flash takes the data as it is and keeps every byte outside. */
  lemma ProgrammedOnErased(part: bytes, addr: nat, data: bytes)
    requires addr + |data| <= |part|
    requires forall i :: addr <= i < addr + |data| ==> part[i] == ERASED
    ensures Programmed(part, addr, data) == part[..addr] + data + part[addr + |data|..]
  {
    var r, want := Programmed(part, addr, data), part[..addr] + data + part[addr + |data|..];
    forall i | 0 <= i < |part| ensures r[i] == want[i] {
      if addr <= i < addr + |data| { ByteOnErased(part, addr, data, i); }
    }
  }

  lemma ByteOnErased(part: bytes, addr: nat, data: bytes, i: nat)
    requires addr <= i < addr + |data| <= |part| && part[i] == ERASED
    ensures Programmed(part, addr, data)[i] == data[i - addr]
  {
    hide AndBits;
    AndErased(data[i - addr]);
  }

  // ---------- one command each ----------

  method CallCleanups(d: Device) returns (ok: bool)
    requires d.store.Valid()
    modifies d
    ensures d.store == old(d.store)
    ensures Sent(old(d.log), d.log, [CLEANUP]) && (ok <==> CleanedUp(d.log[|old(d.log)|].reply))
  {
    var n, rsp := d.Transfer(CLEANUP, 64);
    if n < 2 { return false; }
    if Rd16(rsp, 0) == NOTHING_TO_COMMIT { return true; }
    ok := StatusOk(rsp);
  }

  method EnableWrites(d: Device) returns (ok: bool)
    requires d.store.Valid()
    modifies d
    ensures d.store == old(d.store)
    ensures Sent(old(d.log), d.log, [WriteEnable]) && (ok <==> StatusOk(d.log[|old(d.log)|].reply))
  {
    var n, rsp := d.Transfer(WriteEnable, 64);
    ok := n >= 0 && StatusOk(rsp);
  }

  function Erased(s: Store, p: byte): Store
    requires p in s.flash
  {
    s.(flash := s.flash[p := Blank(|s.flash[p]|)])
  }

  /** erase_flash: success means the partition is blank, and is reported exactly when the erase and its cleanup both
      went well; a failure leaves the partition as it was, or blank when only the answer or the cleanup went wrong.
      The cleanup follows the erase in either case. */
  method EraseFlash(d: Device, partition: byte) returns (ok: bool)
    requires d.store.Valid()
    modifies d
    ensures d.store.Valid()
    ensures ok ==> partition in old(d.store).flash && d.store == Erased(old(d.store), partition)
    ensures !ok ==>
              d.store == old(d.store) || (partition in old(d.store).flash && d.store == Erased(old(d.store), partition))
    ensures Sent(old(d.log), d.log, [WriteEnable, App(EraseBytes(partition)), CLEANUP])
            || (!ok && Sent(old(d.log), d.log, [WriteEnable]))
    ensures ok <==> Accepted(old(d.log), d.log, 3)
  {
    var enabled := EnableWrites(d);
    if !enabled { return false; }
    var n, rsp := d.Transfer(App(EraseBytes(partition)), 64);
    var eraseOk := n >= 0 && StatusOk(rsp);
    var cleanupOk := CallCleanups(d);
    if !eraseOk { return false; }
    if !cleanupOk { return false; }
    return true;
  }

  predicate Fits(s: Store, p: byte, addr: nat, size: nat) { p in s.flash && addr + size <= |s.flash[p]| }

  function Written(s: Store, p: byte, addr: nat, data: bytes): Store
    requires Fits(s, p, addr, |data|)
  {
    s.(flash := s.flash[p := Programmed(s.flash[p], addr, data)])
  }

  /** write_flash: the write-enable is sent without looking at its status, and the cleanup always follows.
      Success is reported exactly when the write and the cleanup both went well. */
  method WriteFlash(d: Device, partition: byte, addr: nat, buf: bytes) returns (ok: bool)
    requires d.store.Valid() && addr < U32_SIZE
    modifies d
    ensures d.store.Valid()
    ensures ok && |buf| < U32_SIZE ==>
              Fits(old(d.store), partition, addr, |buf|) && d.store == Written(old(d.store), partition, addr, buf)
    ensures !ok && |buf| < U32_SIZE ==>
              || d.store == old(d.store)
              || (Fits(old(d.store), partition, addr, |buf|) && d.store == Written(old(d.store), partition, addr, buf))
    ensures Sent(old(d.log), d.log, [WriteEnable, App(WriteHeader(partition, addr, |buf|) + buf), CLEANUP])
    ensures ok <==> Accepted(old(d.log), d.log, 3)
  {
    hide Answers, Decode;
    var _ := EnableWrites(d);
    var m := App(WriteHeader(partition, addr, |buf|) + buf);
    var n, rsp := d.Transfer(m, 8192);
    if |buf| < U32_SIZE { WriteAnswered(d.limit, old(d.store), partition, addr, buf, d.store, n, rsp); }
    var writeOk := n >= 0 && StatusOk(rsp);
    var cleanupOk := CallCleanups(d);
    if !writeOk { return false; }
    if !cleanupOk { return false; }
    return true;
  }

  lemma WriteAnswered(limit: nat, before: Store, partition: byte, addr: nat, buf: bytes, after: Store,
                      n: int, rsp: bytes)
    requires addr < U32_SIZE && |buf| < U32_SIZE
    requires Answers(limit, before, App(WriteHeader(partition, addr, |buf|) + buf), after, 8192, n, rsp)
    ensures n >= 0 && StatusOk(rsp) ==>
              Fits(before, partition, addr, |buf|) && after == Written(before, partition, addr, buf)
    ensures after == before || (Fits(before, partition, addr, |buf|) && after == Written(before, partition, addr, buf))
  {
    hide Decode, Programmed;
    WriteDecodes(partition, addr, buf);
  }

  /** read_flash: on success the device's bytes, as many as it gave; padding beyond the request is possible. */
  method ReadFlash(d: Device, partition: byte, addr: nat, size: nat, cap: nat) returns (ok: bool, data: bytes)
    requires d.store.Valid() && addr < U32_SIZE && size < U32_SIZE
    modifies d
    ensures d.store == old(d.store)
    ensures Sent(old(d.log), d.log, [App(ReadBytes(partition, addr, size))])
    ensures ok ==>
              && Fits(d.store, partition, addr, size) && |data| <= cap
              && var got := if size <= d.limit then size else d.limit;
                 d.store.flash[partition][addr..addr + got] <= data && (d.limit < size ==> |data| == got)
  {
    hide Answers, Decode;
    var n, rsp := d.Transfer(App(ReadBytes(partition, addr, size)), 8192);
    ReadAnswered(d.limit, old(d.store), partition, addr, size, d.store, n, rsp);
    if n < 0 || !StatusOk(rsp) { return false, []; }
    if n < 8 { return false, []; }
    var sz := Rd32(rsp, 2);
    if n < 8 + sz { return false, []; }
    if sz > cap { return false, []; }
    return true, rsp[8..8 + sz];
  }

  lemma ReadAnswered(limit: nat, before: Store, partition: byte, addr: nat, size: nat, after: Store, n: int, rsp: bytes)
    requires addr < U32_SIZE && size < U32_SIZE
    requires Answers(limit, before, App(ReadBytes(partition, addr, size)), after, 8192, n, rsp)
    ensures after == before
    ensures n >= 0 ==> n == |rsp| <= 8192
    ensures n >= 0 && StatusOk(rsp) ==>
              && Fits(before, partition, addr, size) && n >= 8
              && var got := if size <= limit then size else limit;
                 var sz := Rd32(rsp, 2);
                 8 + sz <= n ==>
                   before.flash[partition][addr..addr + got] <= rsp[8..8 + sz] && (limit < size ==> sz == got)
  {
    hide Decode, ReadReply, Honest, Creates, Programmed, StorageReply, Rd32, U16, U32;
    ReadDecodes(partition, addr, size);
    if n >= 0 && StatusOk(rsp) {
      var part := before.flash[partition];
      var reserved: bytes, padding: bytes :| |reserved| == 2
        && rsp == ReadReply(part, addr, size, limit, reserved, padding);
      ReplyParses(part, addr, size, limit, reserved, padding);
    }
  }

  lemma ReplyParses(part: bytes, addr: nat, size: nat, limit: nat, reserved: bytes, padding: bytes)
    requires addr + size <= |part| && |reserved| == 2
    ensures var rsp := ReadReply(part, addr, size, limit, reserved, padding);
            var got := if size <= limit then size else limit;
            && |rsp| >= 8
            && (8 + Rd32(rsp, 2) <= |rsp| && |rsp| <= 8192 ==>
                  rsp[8..8 + Rd32(rsp, 2)] == part[addr..addr + got] + if size <= limit then padding else [])
  {
    var got := if size <= limit then size else limit;
    var payload := part[addr..addr + got] + if size <= limit then padding else [];
    var rsp := ReadReply(part, addr, size, limit, reserved, padding);
    FieldAt32(U16(0), |payload|, reserved + payload);
    assert rsp == U16(0) + U32(|payload|) + (reserved + payload);
    assert rsp[8..] == payload;
  }

  // ---------- whole buffers ----------

  lemma AreFlashOps(partition: byte, addr: nat, buf: bytes)
    ensures IsOp(App(EraseBytes(partition)), FLASH_OPS)
            && IsOp(App(WriteHeader(partition, addr, |buf|) + buf), FLASH_OPS)
  {
  }

  /** What the store holds once this much of the buffer has been written. */
  function WrittenSoFar(s: Store, p: byte, addr: nat, data: bytes): Store
    requires data != [] ==> Fits(s, p, addr, |data|)
  {
    if data == [] then s else Written(s, p, addr, data)
  }

  lemma WrittenInPieces(s: Store, p: byte, addr: nat, a: bytes, b: bytes)
    requires a != [] ==> Fits(s, p, addr, |a|)
    requires b != [] && Fits(s, p, addr + |a|, |b|)
    ensures WrittenSoFar(s, p, addr, a + b) == Written(WrittenSoFar(s, p, addr, a), p, addr + |a|, b)
  {
    if a == [] {
      assert a + b == b;
    } else {
      ProgrammedInPieces(s.flash[p], addr, a, b);
    }
  }

  lemma NothingWritten(s: Store, p: byte, addr: nat, data: bytes)
    requires data == []
    ensures WrittenSoFar(s, p, addr, data) == s
  {
  }

  /** One more chunk on top of what has been written, as a step of the loop below. */
  lemma ChunkWritten(s: Store, before: Store, p: byte, addr: nat, buf: bytes, written: nat, len: nat)
    requires 0 < len && written + len <= |buf|
    requires written > 0 ==> Fits(s, p, addr, written)
    requires before == WrittenSoFar(s, p, addr, buf[..written])
    requires Fits(before, p, addr + written, len)
    ensures Fits(s, p, addr, written + len)
    ensures Written(before, p, addr + written, buf[written..written + len])
            == WrittenSoFar(s, p, addr, buf[..written + len])
  {
    KeepsSizes(s, p, addr, buf[..written]);
    WrittenInPieces(s, p, addr, buf[..written], buf[written..written + len]);
    assert buf[..written] + buf[written..written + len] == buf[..written + len];
  }

  /** write_flash_all: success means the whole buffer is programmed; otherwise `written` bytes are, a whole number
      of chunks or everything. No byte outside that range changes, in this partition or another. Success also means
      that every write and every cleanup was answered well. */
  method WriteFlashAll(d: Device, partition: byte, addr0: nat, buf: bytes) returns (ok: bool, ghost written: nat)
    requires d.store.Valid() && addr0 < U32_SIZE
    modifies d
    ensures d.store.Valid() && Brackets(old(d.log), d.log, FLASH_OPS) && (ok ==> WentWell(old(d.log), d.log, MUTATIONS))
    ensures written <= |buf| && (written % CHUNK == 0 || written == |buf|)
    ensures written > 0 ==> Fits(old(d.store), partition, addr0, written)
    ensures d.store == WrittenSoFar(old(d.store), partition, addr0, buf[..written])
    ensures ok ==> written == |buf|
  {
    hide Brackets, WentWell, Sent, Accepted, Written, WrittenSoFar, WriteHeader;
    NothingSaid(d.log, FLASH_OPS);
    NothingWritten(d.store, partition, addr0, buf[..0]);
    var addr, p, remaining := addr0, 0, |buf|;
    written := 0;
    while remaining > 0
      invariant 0 <= remaining <= |buf| && p == written
      invariant d.store.Valid() && Brackets(old(d.log), d.log, FLASH_OPS) && WentWell(old(d.log), d.log, MUTATIONS)
      invariant written == |buf| - remaining && (written % CHUNK == 0 || remaining == 0)
      invariant written > 0 ==> Fits(old(d.store), partition, addr0, written)
      invariant addr == addr0 + written < U32_SIZE
      invariant d.store == WrittenSoFar(old(d.store), partition, addr0, buf[..written])
    {
      var chunkLen := if remaining < CHUNK then remaining else CHUNK;
      ghost var before, said := d.store, d.log;
      var chunk := buf[p..p + chunkLen];
      var chunkOk := WriteFlash(d, partition, addr, chunk);
      AreFlashOps(partition, addr, chunk);
      OneMutation(said, d.log, App(WriteHeader(partition, addr, |chunk|) + chunk), FLASH_OPS);
      Continued(old(d.log), said, d.log, FLASH_OPS);
      if d.store != before || chunkOk {
        ChunkWritten(old(d.store), before, partition, addr0, buf, written, chunkLen);
        written := written + chunkLen;
      }
      if !chunkOk { return false, written; }
      addr := (addr + chunkLen) % U32_SIZE;
      p := p + chunkLen;
      remaining := remaining - chunkLen;
    }
    return true, written;
  }

  lemma KeepsSizes(s: Store, p: byte, addr: nat, data: bytes)
    requires data != [] ==> Fits(s, p, addr, |data|)
    ensures var s' := WrittenSoFar(s, p, addr, data);
            s'.flash.Keys == s.flash.Keys && forall q :: q in s.flash ==> |s'.flash[q]| == |s.flash[q]|
  {
  }

  /** The caller's buffer after reading: a chunk the device answered short leaves a gap. */
  function ReadBack(part: bytes, start: nat, size: nat, limit: nat, before: bytes): bytes
    requires size == 0 || start + size <= |part|
  {
    seq(|before|, i requires 0 <= i < |before| => if i < size && i % CHUNK < limit then part[start + i] else before[i])
  }

  /** The buffer with the first p bytes read. */
  predicate ReadSoFar(out: bytes, s: Store, partition: byte, start: nat, p: nat, limit: nat, before: bytes) {
    && (p > 0 ==> Fits(s, partition, start, p)) && |out| == |before|
    && forall i :: 0 <= i < |out| ==>
         out[i] == if i < p && i % CHUNK < limit then s.flash[partition][start + i] else before[i]
  }

  /** One more chunk, as many bytes of it as were given. */
  lemma ChunkRead(out: bytes, out': bytes, s: Store, partition: byte, start: nat, p: nat, len: nat, limit: nat,
                  before: bytes, data: bytes, n: nat)
    requires ReadSoFar(out, s, partition, start, p, limit, before) && p % CHUNK == 0 && 0 < len <= CHUNK
             && p + len <= |out|
    requires Fits(s, partition, start + p, len) && |out'| == |out|
    requires var got := if len <= limit then len else limit;
             s.flash[partition][start + p..start + p + got] <= data && (limit < len ==> |data| == got)
    requires n == if |data| < len then |data| else len
    requires forall i :: 0 <= i < |out| ==> out'[i] == if p <= i < p + n then data[i - p] else out[i]
    ensures ReadSoFar(out', s, partition, start, p + len, limit, before)
  {
    ChunkOffsets(p, len);
    var part := s.flash[partition];
    assert data[..n] == part[start + p..start + p + n];
    assert forall k :: 0 <= k < n ==> data[..n][k] == part[start + p + k];
  }

  /** read_flash_all: success fills the buffer with the partition's bytes, up to the gaps of short replies. */
  method ReadFlashAll(d: Device, partition: byte, start: nat, size: nat, out: array<byte>) returns (ok: bool)
    requires d.store.Valid() && start < U32_SIZE && size < U32_SIZE && size <= out.Length
    modifies d, out
    ensures d.store == old(d.store)
    ensures ok && size > 0 ==> Fits(d.store, partition, start, size)
    ensures ok ==>
              out[..] == ReadBack(if size > 0 then d.store.flash[partition] else [], start, size, d.limit, old(out[..]))
  {
    hide ReadSoFar, ReadBytes, ReadBack;
    var addr, remaining, p := start, size, 0;
    ghost var before := out[..];
    NothingRead(before, d.store, partition, start, d.limit);
    while remaining > 0
      invariant d.store == old(d.store)
      invariant 0 <= remaining <= size && p == size - remaining && (remaining > 0 ==> p % CHUNK == 0)
      invariant addr == start + p < U32_SIZE
      invariant ReadSoFar(out[..], d.store, partition, start, p, d.limit, before)
    {
      var chunkLen := if remaining < CHUNK then remaining else CHUNK;
      var chunkOk, data := ReadFlash(d, partition, addr, chunkLen, CHUNK);
      if !chunkOk { return false; }
      var toCopy := if |data| < chunkLen then |data| else chunkLen;
      ghost var sofar := out[..];
      forall i | 0 <= i < toCopy { out[p + i] := data[i]; }
      ChunkRead(sofar, out[..], d.store, partition, start, p, chunkLen, d.limit, before, data, toCopy);
      ChunkOffsets(p, chunkLen);
      addr := (addr + chunkLen) % U32_SIZE;
      p := p + chunkLen;
      remaining := remaining - chunkLen;
    }
    AllRead(out[..], d.store, partition, start, p, d.limit, before);
    return true;
  }

  lemma NothingRead(before: bytes, s: Store, partition: byte, start: nat, limit: nat)
    ensures ReadSoFar(before, s, partition, start, 0, limit, before)
  {
  }

  lemma AllRead(out: bytes, s: Store, partition: byte, start: nat, size: nat, limit: nat, before: bytes)
    requires ReadSoFar(out, s, partition, start, size, limit, before)
    ensures size > 0 ==> Fits(s, partition, start, size)
    ensures out == ReadBack(if size > 0 then s.flash[partition] else [], start, size, limit, before)
  {
  }

  lemma ChunkOffsets(p: nat, len: nat)
    requires p % CHUNK == 0 && len <= CHUNK
    ensures forall i :: p <= i < p + len ==> i % CHUNK == i - p
    ensures len == CHUNK ==> (p + len) % CHUNK == 0
  {
  }

  /** Reading is exact, whatever the buffer held, if and only if the device gives as many bytes as it is asked for. */
  lemma ReadIsExactIff(part: bytes, start: nat, size: nat, limit: nat)
    requires start + size <= |part|
    ensures (forall before: bytes :: |before| == size ==>
             ReadBack(part, start, size, limit, before) == part[start..start + size])
            <==> (if size < CHUNK then size else CHUNK) <= limit
  {
    var most := if size < CHUNK then size else CHUNK;
    if limit < most {
      var other: byte := if part[start + limit] == 0 then 1 else 0;
      var before: bytes := seq(size, _ => other);
      assert ReadBack(part, start, size, limit, before)[limit] == other != part[start..start + size][limit];
    } else {
      forall before: bytes | |before| == size
        ensures ReadBack(part, start, size, limit, before) == part[start..start + size]
      {
        forall i | 0 <= i < size ensures i % CHUNK < limit {
          if size < CHUNK { assert i % CHUNK == i; }
        }
      }
    }
  }

  /** Flash round trip: what a successful write_flash_all puts on an erased range, a successful read_flash_all
      returns, for every start address and length, and every byte outside the range is as before. */
  method WriteThenRead(d: Device, partition: byte, addr: nat, buf: bytes, out: array<byte>) returns (ok: bool)
    requires d.store.Valid() && addr < U32_SIZE && |buf| == out.Length < U32_SIZE
    requires d.limit >= CHUNK
    requires Fits(d.store, partition, addr, |buf|)
    requires forall i :: addr <= i < addr + |buf| ==> d.store.flash[partition][i] == ERASED
    modifies d, out
    ensures ok ==> out[..] == buf
    ensures ok ==> var part := old(d.store).flash[partition];
                   d.store == old(d.store).(flash :=
                                old(d.store).flash[partition := part[..addr] + buf + part[addr + |buf|..]])
  {
    ghost var part := d.store.flash[partition];
    ghost var written: nat;
    ok, written := WriteFlashAll(d, partition, addr, buf);
    if !ok { return; }
    assert buf[..written] == buf;
    ProgrammedOnErased(part, addr, buf);
    if buf == [] {
      assert part[..addr] + buf + part[addr + |buf|..] == part;
      assert d.store.flash == old(d.store).flash[partition := part];
    }
    ok := ReadFlashAll(d, partition, addr, |buf|, out);
    if ok && buf != [] {
      ReadIsExactIff(d.store.flash[partition], addr, |buf|, d.limit);
      assert d.store.flash[partition][addr..addr + |buf|] == buf;
    }
  }
}
