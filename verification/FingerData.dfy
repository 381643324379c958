/** The finger record built from an accepted reply, and the dictionary format it is written in. */
module FingerData {
  import opened Options
  import opened Bytes
  import opened EnrollReply

  datatype Entry = Entry(tag: nat, value: bytes)

  // ---------- dictionaries: tag, length, value, over and over ----------

  predicate EntryFits(e: Entry) { e.tag < U16_SIZE && |e.value| < U16_SIZE }

  predicate AllFit(entries: seq<Entry>) { forall e :: e in entries ==> EntryFits(e) }

  /** An entry as it is packed; tag and length keep their low sixteen bits. */
  function Pack(e: Entry): bytes { U16(e.tag) + U16(|e.value|) + e.value }

  function PackAll(entries: seq<Entry>): bytes {
    if entries == [] then [] else Pack(entries[0]) + PackAll(entries[1..])
  }

  /** The entries of a well-formed dictionary, in order. */
  function Unpack(buf: bytes): Option<seq<Entry>>
    decreases |buf|
  {
    if buf == [] then Some([])
    else if |buf| < 4 || 4 + Rd16(buf, 2) > |buf| then None
    else
      var rest := Unpack(buf[4 + Rd16(buf, 2)..]);
      if rest.None? then None else Some([Entry(Rd16(buf, 0), buf[4..4 + Rd16(buf, 2)])] + rest.value)
  }

  /** Packing and unpacking: what was packed comes back, */
  lemma {:induction false} UnpackOfPack(entries: seq<Entry>)
    requires AllFit(entries)
    ensures Unpack(PackAll(entries)) == Some(entries)
  {
    if entries != [] {
      var e, rest := entries[0], PackAll(entries[1..]);
      UnpackOfPack(entries[1..]);
      PackedHeader(e, rest);
      assert [e] + entries[1..] == entries;
    }
  }

  lemma PackedHeader(e: Entry, rest: bytes)
    requires EntryFits(e)
    ensures var buf := Pack(e) + rest;
            && |buf| >= 4 + |e.value| && Rd16(buf, 0) == e.tag && Rd16(buf, 2) == |e.value|
            && buf[4..4 + |e.value|] == e.value && buf[4 + |e.value|..] == rest
  {
    var buf := Pack(e) + rest;
    FieldAt16([], e.tag, U16(|e.value|) + e.value + rest);
    FieldAt16(U16(e.tag), |e.value|, e.value + rest);
    assert buf == [] + U16(e.tag) + (U16(|e.value|) + e.value + rest);
    assert buf == U16(e.tag) + U16(|e.value|) + (e.value + rest);
  }

  /** and whatever unpacks is the packing of what it unpacks to. */
  lemma {:induction false} PackOfUnpack(buf: bytes)
    requires Unpack(buf).Some?
    ensures AllFit(Unpack(buf).value) && PackAll(Unpack(buf).value) == buf
    decreases |buf|
  {
    hide U16, Rd16, Pack;
    if buf != [] {
      var l := Rd16(buf, 2);
      var e, rest := Entry(Rd16(buf, 0), buf[4..4 + l]), Unpack(buf[4 + l..]).value;
      PackOfUnpack(buf[4 + l..]);
      FirstPacked(buf, e);
      assert Unpack(buf).value == [e] + rest;
      assert ([e] + rest)[1..] == rest;
    }
  }

  lemma FirstPacked(buf: bytes, e: Entry)
    requires |buf| >= 4 && 4 + Rd16(buf, 2) <= |buf| && e == Entry(Rd16(buf, 0), buf[4..4 + Rd16(buf, 2)])
    ensures EntryFits(e) && buf == Pack(e) + buf[4 + Rd16(buf, 2)..]
  {
    hide U16;
    U16OfRd16(buf, 0);
    U16OfRd16(buf, 2);
  }

  lemma U16OfRd16(s: bytes, at: nat)
    requires at + 2 <= |s|
    ensures U16(Rd16(s, at)) == s[at..at + 2]
  {
  }

  /** The value a dictionary holds for a tag: the last one. */
  function Lookup(entries: seq<Entry>, tag: nat): Option<bytes> {
    if entries == [] then None
    else if entries[|entries| - 1].tag == tag then Some(entries[|entries| - 1].value)
    else Lookup(entries[..|entries| - 1], tag)
  }

  lemma LookupSnoc(entries: seq<Entry>, e: Entry, tag: nat)
    ensures Lookup(entries + [e], tag) == if e.tag == tag then Some(e.value) else Lookup(entries, tag)
  {
    assert (entries + [e])[..|entries|] == entries;
  }

  /** One step of parse_dict at position p, in terms of what is left of the dictionary. */
  lemma UnpackAt(buf: bytes, p: nat)
    requires p < |buf|
    ensures var left := |buf| - p;
            if left < 4 || 4 + Rd16(buf, p + 2) > left then Unpack(buf[p..]).None?
            else
              var l := Rd16(buf, p + 2);
              var rest := Unpack(buf[p + 4 + l..]);
              Unpack(buf[p..])
              == if rest.None? then None
                 else Some([Entry(Rd16(buf, p), buf[p + 4..p + 4 + l])] + rest.value)
  {
    var rest := buf[p..];
    if |rest| >= 4 {
      HeaderInPlace(buf, p);
      var l := Rd16(buf, p + 2);
      if 4 + l <= |rest| {
        assert rest[4..4 + l] == buf[p + 4..p + 4 + l] && rest[4 + l..] == buf[p + 4 + l..];
      }
    }
  }

  /** parse_dict: accepts exactly the packings of some entries, and fills in the last value of each small tag. */
  method ParseDict(buf: bytes, ntags: nat) returns (ok: bool, vals: seq<Option<bytes>>)
    ensures ok <==> Unpack(buf).Some?
    ensures ok ==> |vals| == ntags && forall t :: 0 <= t < ntags ==> vals[t] == Lookup(Unpack(buf).value, t)
  {
    hide Unpack, Lookup, Rd16;
    vals := seq(ntags, _ => None);
    var p, len := 0, |buf|;
    ghost var seen: seq<Entry> := [];
    NothingSeen(buf);
    while len > 0
      invariant 0 <= len && p + len == |buf| && |vals| == ntags
      invariant Unpack(buf).Some? <==> Unpack(buf[p..]).Some?
      invariant Unpack(buf).Some? ==> Unpack(buf).value == seen + Unpack(buf[p..]).value
      invariant forall t :: 0 <= t < ntags ==> vals[t] == Lookup(seen, t)
    {
      UnpackAt(buf, p);
      if len < 4 { return false, vals; }
      var t, l := Rd16(buf, p), Rd16(buf, p + 2);
      p, len := p + 4, len - 4;
      if l > len { return false, vals; }
      var value := buf[p..p + l];
      if t < ntags { vals := vals[t := Some(value)]; }
      ghost var e := Entry(t, value);
      forall u: nat ensures Lookup(seen + [e], u) == if u == t then Some(value) else Lookup(seen, u) {
        LookupSnoc(seen, e, u);
      }
      seen := seen + [e];
      p, len := p + l, len - l;
    }
    NothingLeft(buf, p);
    assert seen + [] == seen;
    return true, vals;
  }

  lemma NothingSeen(buf: bytes)
    ensures buf[0..] == buf && forall t: nat :: Lookup([], t) == None
  {
  }

  lemma NothingLeft(buf: bytes, p: nat)
    requires p == |buf|
    ensures Unpack(buf[p..]) == Some([])
  {
  }

  // ---------- the finger record ----------

  const HASH_SIZE := 0x20

  function InfoEntries(tmpl: bytes, tid: bytes): seq<Entry> { [Entry(1, tmpl), Entry(2, tid)] }

  /** The dictionary of template and id inside a finger record. */
  function Info(tmpl: bytes, tid: bytes): bytes { Pack(Entry(1, tmpl)) + Pack(Entry(2, tid)) }

  function FingerRecord(subtype: nat, tmpl: bytes, tid: bytes): bytes {
    U16(subtype) + U16(3) + U16(|Info(tmpl, tid)|) + U16(HASH_SIZE) + Info(tmpl, tid) + Zeros(HASH_SIZE)
  }

  /** make_finger_data: nothing is written when the record does not fit, else exactly the record. */
  method MakeFingerData(subtype: nat, tmpl: bytes, tid: bytes, out: array<byte>) returns (total: nat)
    modifies out
    ensures total == 0 <==> |FingerRecord(subtype, tmpl, tid)| > out.Length
    ensures total > 0 ==> total <= out.Length && out[..total] == FingerRecord(subtype, tmpl, tid)
    ensures total == 0 ==> out[..] == old(out[..])
  {
    var tinfoLen := (4 + |tmpl|) + (4 + |tid|);
    total := 8 + tinfoLen + 0x20;
    if total > out.Length { return 0; }
    hide U16;
    Put(out, 0, U16(subtype) + U16(3) + U16(tinfoLen) + U16(0x20));
    var p := 8;
    Put(out, p, U16(1) + U16(|tmpl|) + tmpl);
    p := p + 4 + |tmpl|;
    Put(out, p, U16(2) + U16(|tid|) + tid);
    p := p + 4 + |tid|;
    Put(out, p, Zeros(0x20));
    RecordInOrder(subtype, tmpl, tid);
  }

  lemma RecordInOrder(subtype: nat, tmpl: bytes, tid: bytes)
    ensures var n := (4 + |tmpl|) + (4 + |tid|);
            FingerRecord(subtype, tmpl, tid)
            == [] + (U16(subtype) + U16(3) + U16(n) + U16(0x20)) + (U16(1) + U16(|tmpl|) + tmpl)
               + (U16(2) + U16(|tid|) + tid) + Zeros(0x20)
  {
    hide U16;
  }

  /** What the sensor, or a later reader, can take out of a finger record. */
  datatype FingerFields = FingerFields(subtype: nat, kind: nat, info: bytes, hash: bytes)

  function ReadFinger(record: bytes): Option<FingerFields> {
    if |record| < 8 || |record| != 8 + Rd16(record, 4) + Rd16(record, 6) then None
    else
      var n := Rd16(record, 4);
      Some(FingerFields(Rd16(record, 0), Rd16(record, 2), record[8..8 + n], record[8 + n..]))
  }

  lemma FingerHeader(subtype: nat, tmpl: bytes, tid: bytes)
    ensures var r := FingerRecord(subtype, tmpl, tid);
            && |r| == 8 + |Info(tmpl, tid)| + HASH_SIZE
            && Rd16(r, 0) == subtype % U16_SIZE && Rd16(r, 2) == 3
            && Rd16(r, 4) == |Info(tmpl, tid)| % U16_SIZE && Rd16(r, 6) == HASH_SIZE
            && r[8..8 + |Info(tmpl, tid)|] == Info(tmpl, tid) && r[8 + |Info(tmpl, tid)|..] == Zeros(HASH_SIZE)
  {
    var info := Info(tmpl, tid);
    var tail := info + Zeros(HASH_SIZE);
    var r := FingerRecord(subtype, tmpl, tid);
    FieldAt16([], subtype, U16(3) + U16(|info|) + U16(HASH_SIZE) + tail);
    FieldAt16(U16(subtype), 3, U16(|info|) + U16(HASH_SIZE) + tail);
    FieldAt16(U16(subtype) + U16(3), |info|, U16(HASH_SIZE) + tail);
    FieldAt16(U16(subtype) + U16(3) + U16(|info|), HASH_SIZE, tail);
    assert r == [] + U16(subtype) + (U16(3) + U16(|info|) + U16(HASH_SIZE) + tail);
    assert r == U16(subtype) + U16(3) + (U16(|info|) + U16(HASH_SIZE) + tail);
    assert r == U16(subtype) + U16(3) + U16(|info|) + (U16(HASH_SIZE) + tail);
    assert r == U16(subtype) + U16(3) + U16(|info|) + U16(HASH_SIZE) + tail;
  }

  /** A record comes apart into what it was made of. */
  predicate RoundTrips(subtype: nat, tmpl: bytes, tid: bytes) {
    var f := ReadFinger(FingerRecord(subtype, tmpl, tid));
    && f.Some?
    && f.value == FingerFields(subtype, 3, Info(tmpl, tid), Zeros(HASH_SIZE))
    && Unpack(f.value.info) == Some(InfoEntries(tmpl, tid))
  }

  /** No field of a finger record is truncated if and only if the subtype and the info section fit sixteen bits. */
  lemma RoundTripsIff(subtype: nat, tmpl: bytes, tid: bytes)
    ensures RoundTrips(subtype, tmpl, tid) <==> subtype < U16_SIZE && 8 + |tmpl| + |tid| < U16_SIZE
  {
    hide U16, Rd16, FingerRecord, Unpack;
    FingerHeader(subtype, tmpl, tid);
    assert |Info(tmpl, tid)| == 8 + |tmpl| + |tid|;
    if 8 + |tmpl| + |tid| < U16_SIZE { InfoUnpacks(tmpl, tid); }
  }

  lemma InfoUnpacks(tmpl: bytes, tid: bytes)
    requires |tmpl| < U16_SIZE && |tid| < U16_SIZE
    ensures Unpack(Info(tmpl, tid)) == Some(InfoEntries(tmpl, tid))
  {
    hide Unpack, Pack;
    var entries := InfoEntries(tmpl, tid);
    UnpackOfPack(entries);
    assert entries[1..] == [Entry(2, tid)] && entries[1..][1..] == [];
    assert PackAll(entries[1..]) == Pack(Entry(2, tid)) + [];
    assert PackAll(entries) == Info(tmpl, tid);
  }

  // ---------- from reply to record ----------

  lemma {:induction false} RecordsShareTheBody(records: seq<bytes>, a: bytes, b: bytes)
    requires a in records && b in records && a != b
    ensures |a| + |b| <= |Flatten(records)|
  {
    if records[0] == a {
      assert b in records[1..];
      PartFits(records[1..], b);
    } else if records[0] == b {
      assert a in records[1..];
      PartFits(records[1..], a);
    } else {
      RecordsShareTheBody(records[1..], a, b);
    }
  }

  lemma {:induction false} PartFits(records: seq<bytes>, a: bytes)
    requires a in records
    ensures |a| <= |Flatten(records)|
  {
    if records[0] != a { PartFits(records[1..], a); }
  }

  /** No length is truncated on the way from reply to record: a template and a non-empty id accepted together give
      an info section of at most 65487 bytes and a record of at most 65527, which new_record's own limit admits
      and which comes apart into the same template and id. */
  lemma AcceptedFitsRecord(body: bytes, records: seq<bytes>, subtype: nat)
    requires Good(body, records) && |body| < U16_SIZE && subtype < U16_SIZE
    requires TidOf(records) != []
    ensures |Info(TemplateOf(records), TidOf(records))| <= 65487
    ensures |FingerRecord(subtype, TemplateOf(records), TidOf(records))| <= 65527
    ensures RoundTrips(subtype, TemplateOf(records), TidOf(records))
  {
    LastWithIsRecord(records, 0);
    LastWithIsRecord(records, 3);
    var t, i := LastWith(records, 0).value, LastWith(records, 3).value;
    RecordsShareTheBody(records, t, i);
    RoundTripsIff(subtype, TemplateOf(records), TidOf(records));
    FingerHeader(subtype, TemplateOf(records), TidOf(records));
  }

  /** Without the id the guarantee would be lost: a reply that carries only the largest template is accepted, but
      its record would not come apart. The enrollment loop stops only at a reply that carries an id. */
  lemma TemplateAloneCanOverflow() returns (reply: bytes, records: seq<bytes>)
    ensures Acceptable(reply) && Good(reply[2..], records) && TidOf(records) == []
    ensures !RoundTrips(2, TemplateOf(records), TidOf(records))
  {
    var len := 0xffff - MAGIC;
    var rec: bytes := U16(0) + U16(len) + Zeros(MAGIC - 4 + len);
    FieldAt16([], 0, U16(len) + Zeros(MAGIC - 4 + len));
    FieldAt16(U16(0), len, Zeros(MAGIC - 4 + len));
    assert rec == [] + U16(0) + (U16(len) + Zeros(MAGIC - 4 + len));
    assert Rd16(rec, 0) == 0 && Rd16(rec, 2) == len;
    records := [rec];
    reply := U16(0xffff) + rec;
    FieldAt16([], 0xffff, rec);
    assert reply == [] + U16(0xffff) + rec && reply[2..] == rec;
    assert records[..0] == [] && Flatten(records) == rec + Flatten([]) == rec;
    assert LastWith(records, 3) == LastWith([], 3);
    assert Good(rec, records);
    RoundTripsIff(2, rec, []);
  }
}
