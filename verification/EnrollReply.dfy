/** The reply to an enrollment update: a length and a row of tagged records. */
module EnrollReply {
  import opened Options
  import opened Bytes

  const MAGIC := 0x38
  const TEMPLATE_MAX := 65536
  const TID_MAX := 1024

  // ---------- what a reply is, stated without the walk ----------

  /** A record spans its fixed part and as many bytes as the length behind its tag says. */
  predicate IsRecord(r: bytes) { |r| >= MAGIC && |r| == MAGIC + Rd16(r, 2) }

  function Tag(r: bytes): nat
    requires IsRecord(r)
  {
    Rd16(r, 0)
  }

  function Flatten(parts: seq<bytes>): bytes {
    if parts == [] then [] else parts[0] + Flatten(parts[1..])
  }

  predicate AllRecords(records: seq<bytes>) { forall r :: r in records ==> IsRecord(r) }

  predicate Splits(body: bytes, records: seq<bytes>) { AllRecords(records) && Flatten(records) == body }

  /** The last record of a kind; earlier ones are overwritten. */
  function LastWith(records: seq<bytes>, tag: nat): Option<bytes>
    requires AllRecords(records)
  {
    if records == [] then None
    else
      var r := records[|records| - 1];
      assert forall q :: q in records[..|records| - 1] ==> q in records;
      if Tag(r) == tag then Some(r) else LastWith(records[..|records| - 1], tag)
  }

  predicate IdsFit(records: seq<bytes>)
    requires AllRecords(records)
  {
    forall r :: r in records && Tag(r) == 3 ==> |r| - MAGIC <= TID_MAX
  }

  /** The replies append_new_image takes: the length word is right, the body is a row of records, one of them a
      template, and every template id fits its buffer. */
  ghost predicate Acceptable(reply: bytes) {
    && |reply| >= 2 && Rd16(reply, 0) == |reply| - 2
    && exists records :: Good(reply[2..], records)
  }

  predicate Good(body: bytes, records: seq<bytes>) {
    Splits(body, records) && LastWith(records, 0).Some? && IdsFit(records)
  }

  function TemplateOf(records: seq<bytes>): bytes
    requires AllRecords(records)
  {
    var r := LastWith(records, 0);
    if r.Some? then r.value else []
  }

  function TidOf(records: seq<bytes>): bytes
    requires AllRecords(records)
  {
    LastWithIsRecord(records, 3);
    var r := LastWith(records, 3);
    if r.Some? then r.value[MAGIC..] else []
  }

  function HeaderLenOf(records: seq<bytes>): nat
    requires AllRecords(records)
  {
    LastWithIsRecord(records, 1);
    var r := LastWith(records, 1);
    if r.Some? then |r.value| - MAGIC else 0
  }

  lemma {:induction false} LastWithIsRecord(records: seq<bytes>, tag: nat)
    requires AllRecords(records)
    ensures var r := LastWith(records, tag); r.Some? ==> r.value in records && IsRecord(r.value) && Tag(r.value) == tag
  {
    if records != [] {
      var front := records[..|records| - 1];
      assert forall q :: q in front ==> q in records;
      LastWithIsRecord(front, tag);
    }
  }

  lemma LastWithSnoc(records: seq<bytes>, r: bytes, tag: nat)
    requires AllRecords(records) && IsRecord(r)
    ensures LastWith(records + [r], tag) == if Tag(r) == tag then Some(r) else LastWith(records, tag)
  {
    assert (records + [r])[..|records|] == records;
  }

  lemma {:induction false} FlattenSnoc(parts: seq<bytes>, last: bytes)
    ensures Flatten(parts + [last]) == Flatten(parts) + last
  {
    if parts == [] {
      assert [last][1..] == [];
    } else {
      FlattenSnoc(parts[1..], last);
      assert (parts + [last])[1..] == parts[1..] + [last];
    }
  }

  /** Where the walk stands, any complete split of the body agrees with what it has passed. */
  lemma {:induction false} SplitsAgree(passed: seq<bytes>, rest: bytes, records: seq<bytes>)
    requires AllRecords(passed) && Splits(Flatten(passed) + rest, records)
    ensures passed <= records && Splits(rest, records[|passed|..])
    decreases |passed|
  {
    if passed == [] {
      assert Flatten(passed) + rest == rest;
    } else {
      var body := Flatten(passed) + rest;
      assert body == passed[0] + (Flatten(passed[1..]) + rest);
      assert IsRecord(passed[0]) && body != [] && records != [];
      SameFirst(body, passed[0], records[0]);
      assert body[|passed[0]|..] == Flatten(passed[1..]) + rest == Flatten(records[1..]);
      SplitsAgree(passed[1..], rest, records[1..]);
    }
  }

  lemma SameFirst(body: bytes, a: bytes, b: bytes)
    requires IsRecord(a) && IsRecord(b) && a <= body && b <= body
    ensures a == b
  {
    assert Rd16(a, 2) == Rd16(body, 2) == Rd16(b, 2);
    assert a == body[..|a|] && b == body[..|b|];
  }

  /** What is left starts with a whole record, or nothing is left. */
  lemma RestStartsWithRecord(rest: bytes, records: seq<bytes>)
    requires Splits(rest, records) && rest != []
    ensures records != [] && |rest| >= MAGIC && MAGIC + Rd16(rest, 2) <= |rest|
            && records[0] == rest[..MAGIC + Rd16(rest, 2)]
  {
    var r := records[0];
    assert IsRecord(r);
    assert rest == r + Flatten(records[1..]);
    assert Rd16(rest, 2) == Rd16(r, 2);
  }

  // ---------- the walk ----------

  /** enroll_result_t: rewritten by every accepted image. */
  class EnrollResult {
    var template: bytes
    var tid: bytes
    var headerLen: nat

    constructor ()
      ensures template == [] && tid == [] && headerLen == 0
    {
      template, tid, headerLen := [], [], 0;
    }
  }

  /** The result holds what a row of records carries. */
  predicate Holds(r: EnrollResult, records: seq<bytes>)
    requires AllRecords(records)
    reads r
  {
    r.template == TemplateOf(records) && r.tid == TidOf(records) && r.headerLen == HeaderLenOf(records)
  }

  /** What one reply leaves in the result. */
  ghost predicate Stored(r: EnrollResult, body: bytes)
    reads r
  {
    exists records :: Good(body, records) && Holds(r, records)
  }

  /** The part of append_new_image after the second update: only if all of the reply is good is the stored
      result replaced. */
  method TakeReply(res: bytes, r: EnrollResult) returns (ok: bool)
    modifies r
    ensures ok <==> Acceptable(res)
    ensures ok ==> Stored(r, res[2..])
    ensures !ok ==> unchanged(r)
  {
    var template, tid, headerLen;
    ghost var records;
    ok, template, tid, headerLen, records := WalkReply(res);
    if ok { r.template, r.tid, r.headerLen := template, tid, headerLen; }
  }

  /** Where the walk stands: behind the records it has passed, with what they carried. */
  predicate WalkAt(res: bytes, p: nat, records: seq<bytes>, haveTemplate: bool, template: bytes, tid: bytes,
                   headerLen: nat)
  {
    && 2 <= p <= |res| && AllRecords(records) && res[2..] == Flatten(records) + res[p..] && IdsFit(records)
    && haveTemplate == LastWith(records, 0).Some?
    && template == TemplateOf(records) && tid == TidOf(records) && headerLen == HeaderLenOf(records)
  }

  lemma WalkStartsAt(res: bytes)
    requires |res| >= 2
    ensures WalkAt(res, 2, [], false, [], [], 0)
  {
    WalkStarts(res[2..]);
  }

  lemma WalkSteps(res: bytes, p: nat, records: seq<bytes>, haveTemplate: bool, template: bytes, tid: bytes,
                  headerLen: nat)
    requires WalkAt(res, p, records, haveTemplate, template, tid, headerLen) && p + 4 <= |res|
    requires var tl := Rd16(res, p + 2); p + MAGIC + tl <= |res| && (Rd16(res, p) == 3 ==> tl <= TID_MAX)
    ensures var tag, step := Rd16(res, p), MAGIC + Rd16(res, p + 2);
            var rec := res[p..p + step];
            WalkAt(res, p + step, records + [rec], haveTemplate || tag == 0, if tag == 0 then rec else template,
                   if tag == 3 then res[p + MAGIC..p + step] else tid, if tag == 1 then step - MAGIC else headerLen)
  {
    hide Flatten, LastWith, IdsFit, TemplateOf, TidOf, HeaderLenOf, Rd16;
    var step := MAGIC + Rd16(res, p + 2);
    RecordInPlace(res, p, step);
    Passes(records, res[p..], res[p..p + step]);
  }

  lemma WalkRefuses(res: bytes, p: nat, records: seq<bytes>, haveTemplate: bool, template: bytes, tid: bytes,
                    headerLen: nat)
    requires WalkAt(res, p, records, haveTemplate, template, tid, headerLen) && p < |res|
    requires || p + 4 > |res| || p + MAGIC + Rd16(res, p + 2) > |res|
             || (Rd16(res, p) == 3 && Rd16(res, p + 2) > TID_MAX)
    ensures !Acceptable(res)
  {
    hide Flatten, LastWith, IdsFit, Acceptable, TemplateOf, TidOf, HeaderLenOf, Rd16;
    if p + 4 <= |res| { HeaderInPlace(res, p); }
    Refused(res, records, res[p..]);
  }

  /** Walks the reply record by record, the last record of each kind winning. The size test on a template, made
      as the code makes it, never fires: no record of an accepted length reaches it. */
  method WalkReply(res: bytes)
    returns (ok: bool, template: bytes, tid: bytes, headerLen: nat, ghost records: seq<bytes>)
    ensures ok <==> Acceptable(res)
    ensures ok ==> Good(res[2..], records)
    ensures ok ==> template == TemplateOf(records) && tid == TidOf(records) && headerLen == HeaderLenOf(records)
  {
    hide Acceptable, Good, WalkAt, Rd16;
    ok, template, tid, headerLen, records := false, [], [], 0, [];
    LengthMustMatch(res);
    if |res| < 2 { return; }
    var l := Rd16(res, 0);
    if l != |res| - 2 { return; }
    WalkStartsAt(res);
    var p, left, haveTemplate := 2, |res| - 2, false;
    while left > 0
      invariant p + left == |res| && p >= 2 && 0 <= left <= l < TEMPLATE_MAX
      invariant WalkAt(res, p, records, haveTemplate, template, tid, headerLen)
    {
      if left < 4 { WalkRefuses(res, p, records, haveTemplate, template, tid, headerLen); return; }
      var tag, tl := Rd16(res, p), Rd16(res, p + 2);
      var step := MAGIC + tl;
      if step > left || (tag == 3 && tl > TID_MAX) {
        WalkRefuses(res, p, records, haveTemplate, template, tid, headerLen);
      } else {
        WalkSteps(res, p, records, haveTemplate, template, tid, headerLen);
      }
      if tag == 0 {
        if step > left || step > TEMPLATE_MAX { return; }
        template, haveTemplate := res[p..p + step], true;
      } else if tag == 1 {
        if step > left { return; }
        headerLen := tl;
      } else if tag == 3 {
        if step > left || tl > TID_MAX { return; }
        tid := res[p + MAGIC..p + MAGIC + tl];
      }
      if step > left { return; }
      records := records + [res[p..p + step]];
      p, left := p + step, left - step;
    }
    WalkEnds(res, p, records, haveTemplate, template, tid, headerLen);
    ok := haveTemplate;
  }

  lemma LengthMustMatch(res: bytes)
    ensures Acceptable(res) ==> |res| >= 2 && Rd16(res, 0) == |res| - 2
  {
  }

  lemma Refused(res: bytes, passed: seq<bytes>, rest: bytes)
    requires AllRecords(passed) && rest != [] && |res| >= 2 && res[2..] == Flatten(passed) + rest
    requires || |rest| < 4 || MAGIC + Rd16(rest, 2) > |rest|
             || (Rd16(rest, 0) == 3 && Rd16(rest, 2) > TID_MAX)
    ensures !Acceptable(res)
  {
    hide Good, Flatten;
    NoSplit(passed, rest);
  }

  /** A body passed to its end is good exactly if there was a template in it. */
  lemma WalkEnds(res: bytes, p: nat, records: seq<bytes>, haveTemplate: bool, template: bytes, tid: bytes,
                 headerLen: nat)
    requires WalkAt(res, p, records, haveTemplate, template, tid, headerLen) && p == |res| && Rd16(res, 0) == |res| - 2
    ensures haveTemplate ==> Good(res[2..], records) && template == TemplateOf(records) && tid == TidOf(records)
                             && headerLen == HeaderLenOf(records)
    ensures Acceptable(res) <==> haveTemplate
  {
    hide Flatten, LastWith, IdsFit, TemplateOf, TidOf, HeaderLenOf, Rd16;
    var body := res[2..];
    assert body == Flatten(records) + [];
    assert Splits(body, records);
    if haveTemplate {
      assert Good(body, records);
    } else {
      forall other | Splits(body, other) ensures other == records { OneSplit(body, other, records); }
    }
  }

  lemma HeaderInPlace(res: bytes, p: nat)
    requires p + 4 <= |res|
    ensures Rd16(res[p..], 0) == Rd16(res, p) && Rd16(res[p..], 2) == Rd16(res, p + 2)
  {
  }

  lemma RecordInPlace(res: bytes, p: nat, step: nat)
    requires p + step <= |res| && step >= MAGIC && step == MAGIC + Rd16(res, p + 2)
    ensures var rec := res[p..p + step];
            IsRecord(rec) && Tag(rec) == Rd16(res, p) && rec <= res[p..] && res[p..][step..] == res[p + step..]
            && rec[MAGIC..] == res[p + MAGIC..p + step]
  {
  }

  lemma OneSplit(body: bytes, a: seq<bytes>, b: seq<bytes>)
    requires Splits(body, a) && Splits(body, b)
    ensures a == b
  {
    assert Flatten(a) + [] == body && Flatten(b) + [] == body;
    SplitsAgree(a, [], b);
    SplitsAgree(b, [], a);
  }

  /** The walk refuses only where no split exists, or where an id does not fit. */
  lemma NoSplit(passed: seq<bytes>, rest: bytes)
    requires AllRecords(passed) && rest != []
    requires || |rest| < 4 || MAGIC + Rd16(rest, 2) > |rest|
             || (Rd16(rest, 0) == 3 && Rd16(rest, 2) > TID_MAX)
    ensures forall records :: !Good(Flatten(passed) + rest, records)
  {
    forall records | Splits(Flatten(passed) + rest, records) ensures !IdsFit(records) {
      SplitsAgree(passed, rest, records);
      RestStartsWithRecord(rest, records[|passed|..]);
      if |rest| >= 4 && Rd16(rest, 0) == 3 && Rd16(rest, 2) > TID_MAX {
        var rec := records[|passed|];
        assert rec in records && Rd16(rec, 0) == Rd16(rest, 0);
      }
    }
  }

  lemma WalkStarts(body: bytes)
    ensures Flatten([]) + body == body && IdsFit([])
    ensures LastWith([], 0) == None && TemplateOf([]) == [] && TidOf([]) == [] && HeaderLenOf([]) == 0
  {
  }

  /** Stepping over one more record. */
  lemma Passes(passed: seq<bytes>, rest: bytes, rec: bytes)
    requires AllRecords(passed) && IsRecord(rec) && rec <= rest
    ensures AllRecords(passed + [rec])
    ensures Flatten(passed) + rest == Flatten(passed + [rec]) + rest[|rec|..]
    ensures IdsFit(passed) && (Tag(rec) == 3 ==> |rec| - MAGIC <= TID_MAX) ==> IdsFit(passed + [rec])
    ensures LastWith(passed + [rec], 0).Some? == (Tag(rec) == 0 || LastWith(passed, 0).Some?)
    ensures TemplateOf(passed + [rec]) == if Tag(rec) == 0 then rec else TemplateOf(passed)
    ensures TidOf(passed + [rec]) == if Tag(rec) == 3 then rec[MAGIC..] else TidOf(passed)
    ensures HeaderLenOf(passed + [rec]) == if Tag(rec) == 1 then |rec| - MAGIC else HeaderLenOf(passed)
  {
    FlattenSnoc(passed, rec);
    assert rest == rec + rest[|rec|..];
    LastWithSnoc(passed, rec, 0);
    LastWithSnoc(passed, rec, 1);
    LastWithSnoc(passed, rec, 3);
  }
}
