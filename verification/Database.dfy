/** The records on the sensor: one storage, users under it, fingers under each user. */
module Database {
  import opened Options
  import opened Bytes
  import opened Sensor
  import opened Flash

  const REPLY_MAX := 4096
  const MAX_USERS := 64
  const KIND_STORAGE := 4
  const KIND_USER := 5
  const KIND_FINGER := 0xb

  // ---------- packed commands ----------

  function StorageBytes(name: bytes): bytes { [0x4b] + U16(0) + U16(|name|) + name }

  function DeleteBytes(dbid: nat): bytes { [0x48] + U16(dbid) }

  function LookupBytes(storage: nat, identity: bytes): bytes {
    [0x4a] + U16(0) + U16(storage) + U16(|identity|) + identity
  }

  function RecordBytes(parent: nat, kind: nat, storage: nat, data: bytes): bytes {
    [0x47] + U16(parent) + U16(kind) + U16(storage) + U16(|data|) + data
  }

  lemma StorageDecodes(name: bytes)
    requires |name| < U16_SIZE
    ensures Decode(App(StorageBytes(name))) == StorageCmd(name)
  {
    hide U16, Rd16;
    var c := StorageBytes(name);
    FieldAt16([0x4b], 0, U16(|name|) + name);
    FieldAt16([0x4b] + U16(0), |name|, name);
    assert c == [0x4b] + U16(0) + (U16(|name|) + name);
    assert c[5..] == name;
  }

  lemma DeleteDecodes(dbid: nat)
    requires dbid < U16_SIZE
    ensures Decode(App(DeleteBytes(dbid))) == DeleteCmd(dbid)
  {
    FieldAt16([0x48], dbid, []);
    assert DeleteBytes(dbid) == [0x48] + U16(dbid) + [];
  }

  lemma LookupDecodes(storage: nat, identity: bytes)
    requires storage < U16_SIZE && |identity| < U16_SIZE
    ensures Decode(App(LookupBytes(storage, identity))) == LookupCmd(storage, identity)
  {
    hide U16, Rd16;
    var c := LookupBytes(storage, identity);
    FieldAt16([0x4a], 0, U16(storage) + U16(|identity|) + identity);
    FieldAt16([0x4a] + U16(0), storage, U16(|identity|) + identity);
    FieldAt16([0x4a] + U16(0) + U16(storage), |identity|, identity);
    assert c == [0x4a] + U16(0) + (U16(storage) + U16(|identity|) + identity);
    assert c == [0x4a] + U16(0) + U16(storage) + (U16(|identity|) + identity);
    assert c[7..] == identity;
  }

  lemma RecordDecodes(parent: nat, kind: nat, storage: nat, data: bytes)
    requires parent < U16_SIZE && kind < U16_SIZE && storage < U16_SIZE && |data| < U16_SIZE
    ensures Decode(App(RecordBytes(parent, kind, storage, data))) == RecordCmd(parent, kind, storage, data)
  {
    hide U16, Rd16;
    var c := RecordBytes(parent, kind, storage, data);
    FieldAt16([0x47], parent, U16(kind) + U16(storage) + U16(|data|) + data);
    FieldAt16([0x47] + U16(parent), kind, U16(storage) + U16(|data|) + data);
    FieldAt16([0x47] + U16(parent) + U16(kind), storage, U16(|data|) + data);
    FieldAt16([0x47] + U16(parent) + U16(kind) + U16(storage), |data|, data);
    assert c == [0x47] + U16(parent) + (U16(kind) + U16(storage) + U16(|data|) + data);
    assert c == [0x47] + U16(parent) + U16(kind) + (U16(storage) + U16(|data|) + data);
    assert c == [0x47] + U16(parent) + U16(kind) + U16(storage) + (U16(|data|) + data);
    assert c[9..] == data;
  }

  // ---------- get_user_storage ----------

  datatype StorageInfo = StorageInfo(dbid: nat, userCount: nat, users: seq<nat>)

  /** 0, 1 for "does not exist", -1. */
  datatype Found = Yes | No | Failed

  function Min(a: nat, b: nat): nat { if a < b then a else b }

  function Ids(users: seq<User>): seq<nat> { seq(|users|, i requires 0 <= i < |users| => users[i].dbid) }

  /** What get_user_storage makes of a storage: its id, how many users it says it has, and the first 64. */
  function InfoOf(s: Storage): StorageInfo {
    StorageInfo(s.dbid, |s.users|, Ids(s.users[..Min(|s.users|, MAX_USERS)]))
  }

  /** The part of get_user_storage that walks the reply; every access stays inside it, whatever it says. */
  method ParseStorage(rsp: bytes) returns (ok: bool, out: StorageInfo)
    ensures ok <==> |rsp| >= 10 && Rd16(rsp, 4) * 4 + Rd16(rsp, 6) <= |rsp| - 10
    ensures ok ==> out.dbid == Rd16(rsp, 2) && out.userCount == Rd16(rsp, 4)
    ensures ok ==> |out.users| == Min(out.userCount, MAX_USERS)
    ensures ok ==> forall i :: 0 <= i < |out.users| ==> out.users[i] == Rd16(rsp, 10 + 4 * i)
  {
    out := StorageInfo(0, 0, []);
    if |rsp| < 2 + 8 { return false, out; }
    var recid, usercnt, namesz := Rd16(rsp, 2), Rd16(rsp, 4), Rd16(rsp, 6);
    var p, left := 10, |rsp| - 10;
    if usercnt * 4 + namesz > left { return false, out; }
    var users, i := [], 0;
    while i < usercnt && i < MAX_USERS
      invariant 0 <= i <= Min(usercnt, MAX_USERS) && |users| == i
      invariant forall k :: 0 <= k < i ==> users[k] == Rd16(rsp, 10 + 4 * k)
    {
      users := users + [Rd16(rsp, p + i * 4)];
      i := i + 1;
    }
    return true, StorageInfo(recid, usercnt, users);
  }

  lemma {:induction false} UserRefAt(users: seq<User>, i: nat)
    requires i < |users| && users[i].dbid < U16_SIZE
    ensures |UserRefs(users)| == 4 * |users| && Rd16(UserRefs(users), 4 * i) == users[i].dbid
  {
    UserRefsLength(users);
    UserRefsLength(users[1..]);
    var head := U16(users[0].dbid) + U16(|users[0].identity|);
    if i == 0 {
      FieldAt16([], users[0].dbid, U16(|users[0].identity|) + UserRefs(users[1..]));
      assert UserRefs(users) == [] + U16(users[0].dbid) + (U16(|users[0].identity|) + UserRefs(users[1..]));
    } else {
      UserRefAt(users[1..], i - 1);
      assert UserRefs(users) == head + UserRefs(users[1..]);
      assert Rd16(UserRefs(users), 4 * i) == Rd16(UserRefs(users[1..]), 4 * (i - 1));
    }
  }

  lemma StorageReplyHeader(s: Storage, unknown: nat)
    requires s.dbid < U16_SIZE && |s.users| < U16_SIZE
    ensures var rsp := StorageReply(s, unknown);
            && |rsp| == 21 + 4 * |s.users|
            && Rd16(rsp, 2) == s.dbid && Rd16(rsp, 4) == |s.users| && Rd16(rsp, 6) == |STORAGE_NAME|
            && rsp[10..10 + 4 * |s.users|] == UserRefs(s.users)
  {
    hide U16, UserRefs, Rd16;
    var rsp := StorageReply(s, unknown);
    var tail := UserRefs(s.users) + STORAGE_NAME;
    UserRefsLength(s.users);
    FieldAt16(U16(0), s.dbid, U16(|s.users|) + U16(|STORAGE_NAME|) + U16(unknown) + tail);
    FieldAt16(U16(0) + U16(s.dbid), |s.users|, U16(|STORAGE_NAME|) + U16(unknown) + tail);
    FieldAt16(U16(0) + U16(s.dbid) + U16(|s.users|), |STORAGE_NAME|, U16(unknown) + tail);
    assert rsp == U16(0) + U16(s.dbid) + (U16(|s.users|) + U16(|STORAGE_NAME|) + U16(unknown) + tail);
    assert rsp == U16(0) + U16(s.dbid) + U16(|s.users|) + (U16(|STORAGE_NAME|) + U16(unknown) + tail);
    assert rsp == U16(0) + U16(s.dbid) + U16(|s.users|) + U16(|STORAGE_NAME|) + (U16(unknown) + tail);
  }

  /** The reply a device gives for a storage parses back to that storage. */
  lemma StorageReplyParses(s: Storage, unknown: nat)
    requires s.dbid < U16_SIZE && |s.users| < U16_SIZE && forall u :: u in s.users ==> u.dbid < U16_SIZE
    ensures var rsp := StorageReply(s, unknown);
            && |rsp| == 21 + 4 * |s.users|
            && Rd16(rsp, 2) == s.dbid && Rd16(rsp, 4) == |s.users| && Rd16(rsp, 6) == |STORAGE_NAME|
            && forall i :: 0 <= i < |s.users| ==> Rd16(rsp, 10 + 4 * i) == s.users[i].dbid
  {
    hide StorageReply, UserRefs;
    StorageReplyHeader(s, unknown);
    var rsp := StorageReply(s, unknown);
    forall i | 0 <= i < |s.users| ensures Rd16(rsp, 10 + 4 * i) == s.users[i].dbid {
      UserRefAt(s.users, i);
      assert rsp[10..10 + 4 * |s.users|][4 * i] == rsp[10 + 4 * i];
      assert rsp[10..10 + 4 * |s.users|][4 * i + 1] == rsp[10 + 4 * i + 1];
    }
  }

  lemma StorageAnswered(limit: nat, before: Store, name: bytes, after: Store, n: int, rsp: bytes)
    requires before.Valid() && |name| < U16_SIZE
    requires Answers(limit, before, App(StorageBytes(name)), after, REPLY_MAX, n, rsp)
    ensures after == before
    ensures n >= 0 ==> n == |rsp| <= REPLY_MAX
    ensures n >= 0 && SaysNotFound(rsp) ==> before.db.None?
    ensures n >= 0 && StatusOk(rsp) ==>
              before.db.Some? && exists unknown: nat :: rsp == StorageReply(before.db.value, unknown)
  {
    hide Decode, StorageReply;
    StorageDecodes(name);
  }

  const NAME_LIMIT := 64

  /** get_user_storage: a name that is too long is not sent; `Yes` is followed by what the storage really holds, `No`
      means there is none. The store is not changed. */
  method GetUserStorage(d: Device, name: bytes) returns (rc: Found, out: StorageInfo)
    requires d.store.Valid()
    modifies d
    ensures d.store == old(d.store)
            && Sent(old(d.log), d.log, if |name| > NAME_LIMIT then [] else [App(StorageBytes(name))])
    ensures |name| > NAME_LIMIT ==> rc == Failed
    ensures rc == Yes ==> d.store.db.Some? && out == InfoOf(d.store.db.value)
    ensures rc == No ==> d.store.db.None?
    ensures d.reliable && |name| <= NAME_LIMIT && 21 + 4 * |d.store.Users()| <= REPLY_MAX ==>
              rc == if d.store.db.Some? then Yes else No
    ensures d.store.db.Some? && 21 + 4 * |d.store.Users()| > REPLY_MAX ==> rc == Failed
  {
    hide Answers, Decode, StorageReply, Prompt;
    out := StorageInfo(0, 0, []);
    if |name| > NAME_LIMIT { return Failed, out; }
    ghost var before := d.store;
    var n, rsp := d.Transfer(App(StorageBytes(name)), REPLY_MAX);
    StorageAnswered(d.limit, before, name, d.store, n, rsp);
    if d.reliable { StoragePrompt(before, name, n, rsp); }
    if n < 2 { return Failed, out; }
    if Rd16(rsp, 0) == NOT_FOUND { return No, out; }
    if !StatusOk(rsp) { return Failed, out; }
    ghost var unknown: nat :| rsp == StorageReply(before.db.value, unknown);
    StorageReplyParses(before.db.value, unknown);
    var ok;
    ok, out := ParseStorage(rsp);
    assert ok && out == InfoOf(before.db.value);
    rc := if ok then Yes else Failed;
  }

  lemma StoragePrompt(before: Store, name: bytes, n: int, rsp: bytes)
    requires |name| < U16_SIZE && Prompt(before, App(StorageBytes(name)), n, rsp, REPLY_MAX)
    ensures before.db.None? ==> n >= 0 && SaysNotFound(rsp)
    ensures before.db.Some? && 21 + 4 * |before.Users()| <= REPLY_MAX ==> n >= 0 && StatusOk(rsp)
  {
    hide Decode;
    StorageDecodes(name);
  }

  // ---------- deleting ----------

  function Without(s: Store, dbid: nat): Store {
    var at := IndexOfUser(s.Users(), dbid);
    if at.Some? && at.value < |s.Users()| then
      s.(db := Some(s.db.value.(users := s.Users()[..at.value] + s.Users()[at.value + 1..])))
    else s
  }

  lemma DeleteAnswered(limit: nat, before: Store, dbid: nat, after: Store, n: int, rsp: bytes)
    requires dbid < U16_SIZE && Answers(limit, before, App(DeleteBytes(dbid)), after, 64, n, rsp)
    ensures after == before || after == Without(before, dbid)
    ensures n >= 0 && StatusOk(rsp) ==> IndexOfUser(before.Users(), dbid).Some? && after == Without(before, dbid)
    ensures n >= 0 ==> n == |rsp|
  {
    hide Decode;
    DeleteDecodes(dbid);
  }

  lemma DeletePrompt(before: Store, dbid: nat, n: int, rsp: bytes)
    requires dbid < U16_SIZE && Prompt(before, App(DeleteBytes(dbid)), n, rsp, 64)
    ensures IndexOfUser(before.Users(), dbid).Some? ==> n >= 0 && StatusOk(rsp)
  {
    hide Decode;
    DeleteDecodes(dbid);
  }

  /** del_record on a user, whose fingers go with it. */
  method DelRecord(d: Device, dbid: nat) returns (ok: bool)
    requires d.store.Valid() && dbid < U16_SIZE
    modifies d
    ensures d.store.Valid() && Sent(old(d.log), d.log, [App(DeleteBytes(dbid))])
    ensures d.store == old(d.store) || d.store == Without(old(d.store), dbid)
    ensures ok ==> d.store == Without(old(d.store), dbid)
    ensures d.reliable && IndexOfUser(old(d.store).Users(), dbid).Some? ==> ok
  {
    hide Answers, Decode, Prompt, Without;
    ghost var before := d.store;
    var n, rsp := d.Transfer(App(DeleteBytes(dbid)), 64);
    DeleteAnswered(d.limit, before, dbid, d.store, n, rsp);
    if d.reliable { DeletePrompt(before, dbid, n, rsp); }
    ok := n >= 0 && StatusOk(rsp);
  }

  /** Deleting the first user. */
  lemma WithoutFirst(s: Store)
    requires s.Users() != []
    ensures Without(s, s.Users()[0].dbid).Users() == s.Users()[1..]
    ensures IndexOfUser(s.Users(), s.Users()[0].dbid) == Some(0)
  {
  }

  /** The deletion loop of wipe_users over the ids it was given. */
  method DeleteUsers(d: Device, ids: seq<nat>) returns (ok: bool, deleted: nat)
    requires d.store.Valid() && |ids| <= |d.store.Users()| && ids == Ids(d.store.Users()[..|ids|])
    modifies d
    ensures d.store.Valid() && Asks(old(d.log), d.log)
    ensures exists k: nat :: k <= |ids| && d.store.Users() == old(d.store).Users()[k..]
    ensures ok ==> d.store.Users() == old(d.store).Users()[|ids|..] && deleted == |ids|
    ensures d.reliable ==> ok
  {
    hide Without, Asks, Mutating;
    ghost var users, log := d.store.Users(), d.log;
    NothingSaid(log, RECORD_OPS);
    assert users == users[0..];
    deleted := 0;
    var i := 0;
    while i < |ids|
      invariant 0 <= i <= |ids| && deleted == i
      invariant d.store.Valid() && d.store.Users() == users[i..]
      invariant Asks(log, d.log)
    {
      assert d.store.Users()[0] == users[i] && d.store.Users()[1..] == users[i + 1..];
      WithoutFirst(d.store);
      ghost var said := d.log;
      var gone := DelRecord(d, ids[i]);
      DeleteNeedsNoBracket(ids[i]);
      OneQuestion(said, d.log, RECORD_OPS);
      AskedOn(log, said, d.log);
      if !gone { return false, deleted; }
      deleted := deleted + 1;
      i := i + 1;
    }
    return true, deleted;
  }

  lemma DeleteNeedsNoBracket(dbid: nat)
    ensures !Mutating(App(DeleteBytes(dbid)))
  {
  }

  lemma StorageNeedsNoBracket(name: bytes)
    ensures !Mutating(App(StorageBytes(name)))
  {
  }

  /** wipe_users: whatever the sensor does, at most the first 64 users go, in order, and 0 is returned only when
      none is left. `deleted` is 0 until the deletions are done, and then their number. A reliable sensor loses exactly
      min(n, 64) of its n users, as long as it can list them in one reply, and then 0 is returned exactly when that was
      all of them; one that cannot loses none. */
  method WipeUsers(d: Device) returns (ok: bool, deleted: nat)
    requires d.store.Valid()
    modifies d
    ensures d.store.Valid() && Asks(old(d.log), d.log)
    ensures exists k: nat :: k <= Min(|old(d.store).Users()|, MAX_USERS) && d.store.Users() == old(d.store).Users()[k..]
    ensures ok ==> d.store.Users() == [] && deleted == |old(d.store).Users()|
    ensures deleted > 0 ==>
              deleted == Min(|old(d.store).Users()|, MAX_USERS) && d.store.Users() == old(d.store).Users()[deleted..]
    ensures d.reliable && 21 + 4 * |old(d.store).Users()| <= REPLY_MAX ==>
              var n := |old(d.store).Users()|;
              && deleted == Min(n, MAX_USERS) && d.store.Users() == old(d.store).Users()[deleted..]
              && (ok <==> n <= MAX_USERS)
    ensures 21 + 4 * |old(d.store).Users()| > REPLY_MAX ==> !ok && d.store == old(d.store)
  {
    hide Asks, Mutating;
    deleted := 0;
    ghost var users, log := d.store.Users(), d.log;
    assert users == users[0..];
    StorageNeedsNoBracket(STORAGE_NAME);
    var rc, stg := GetUserStorage(d, STORAGE_NAME);
    OneQuestion(log, d.log, RECORD_OPS);
    if rc == Failed { return false, 0; }
    if rc == No || stg.userCount == 0 { return true, 0; }
    ghost var listed := d.log;
    var allGone, count := DeleteUsers(d, stg.users);
    AskedOn(log, listed, d.log);
    if !allGone { return false, 0; }
    deleted := count;
    ghost var said := d.log;
    var rc2, after := GetUserStorage(d, STORAGE_NAME);
    OneQuestion(said, d.log, RECORD_OPS);
    AskedOn(log, said, d.log);
    if rc2 == Failed { return false, deleted; }
    ok := rc2 == No || after.userCount == 0;
  }

  /** The users a reliable sensor holds after k calls of wipe_users. */
  function AfterWipes(users: seq<User>, k: nat): seq<User> {
    if k == 0 then users else AfterWipes(users[Min(|users|, MAX_USERS)..], k - 1)
  }

  /** k calls empty the sensor if and only if 64 k >= n: ceil(n / 64) of them are needed and enough. */
  lemma {:induction false} WipesEmptyIff(users: seq<User>, k: nat)
    ensures AfterWipes(users, k) == [] <==> |users| <= MAX_USERS * k
  {
    if k > 0 { WipesEmptyIff(users[Min(|users|, MAX_USERS)..], k - 1); }
  }

  /** wipe_users called again and again, as its caller is told to: on a reliable sensor whose n users fit one reply, k
      calls remove the first min(n, 64 k) users, so they empty it if and only if 64 k >= n, and then the last call
      returns 0. */
  method WipeAgain(d: Device, k: nat) returns (ok: bool)
    requires d.store.Valid() && d.reliable && k > 0 && 21 + 4 * |d.store.Users()| <= REPLY_MAX
    modifies d
    ensures d.store.Valid() && d.store.Users() == AfterWipes(old(d.store).Users(), k)
    ensures d.store.Users() == [] <==> |old(d.store).Users()| <= MAX_USERS * k
    ensures ok <==> d.store.Users() == []
  {
    ghost var users := d.store.Users();
    ok := false;
    var i := 0;
    while i < k
      invariant 0 <= i <= k && d.store.Valid() && |d.store.Users()| <= |users|
      invariant AfterWipes(d.store.Users(), k - i) == AfterWipes(users, k)
      invariant i > 0 ==> (ok <==> d.store.Users() == [])
    {
      var deleted;
      ok, deleted := WipeUsers(d);
      i := i + 1;
    }
    WipesEmptyIff(users, k);
  }

  // ---------- creating records ----------

  /** The store after a record was asked for: as before, or with the record. */
  ghost predicate MayCreate(before: Store, parent: nat, kind: nat, data: bytes, after: Store) {
    after == before || exists id: nat :: 0 < id < U16_SIZE && Creates(before, parent, kind, data, id, after)
  }

  lemma RecordAnswered(limit: nat, before: Store, parent: nat, kind: nat, storage: nat, data: bytes, after: Store,
                       n: int, rsp: bytes)
    requires parent < U16_SIZE && kind < U16_SIZE && storage < U16_SIZE && |data| < U16_SIZE
    requires Answers(limit, before, App(RecordBytes(parent, kind, storage, data)), after, REPLY_MAX, n, rsp)
    ensures MayCreate(before, parent, kind, data, after)
    ensures n >= 0 ==> n == |rsp|
    ensures n >= 0 && StatusOk(rsp) ==>
              n == 4 && 0 < Rd16(rsp, 2) && Creates(before, parent, kind, data, Rd16(rsp, 2), after)
  {
    hide Decode, Creates, U16, Rd16, RecordBytes, Honest;
    RecordDecodes(parent, kind, storage, data);
    if n >= 0 && StatusOk(rsp) {
      var dbid: nat :| 0 < dbid < U16_SIZE && rsp == U16(0) + U16(dbid)
        && Creates(before, parent, kind, data, dbid, after);
      IdLeads(dbid);
    }
  }

  lemma IdLeads(dbid: nat)
    requires dbid < U16_SIZE
    ensures |U16(0) + U16(dbid)| == 4 && Rd16(U16(0) + U16(dbid), 2) == dbid
  {
    FieldAt16(U16(0), dbid, []);
    assert U16(0) + U16(dbid) + [] == U16(0) + U16(dbid);
  }

  /** db_info, sent before every new record; its reply only has to be long enough. */
  method DbInfo(d: Device) returns (ok: bool)
    requires d.store.Valid()
    modifies d
    ensures d.store == old(d.store) && Sent(old(d.log), d.log, [App([0x45])])
  {
    var n, rsp := d.Transfer(App([0x45]), REPLY_MAX);
    ok := n >= 0 && StatusOk(rsp) && n >= 2 + 0x18;
  }

  /** new_record: nothing is sent for data over 64 KB; otherwise success means the record exists under the id that
      is returned, and a failure leaves the store as it was or, when only the answer or the cleanup went wrong, with
      the record in it. */
  method NewRecord(d: Device, parent: nat, kind: nat, storage: nat, data: bytes) returns (ok: bool, recid: nat)
    requires d.store.Valid() && parent < U16_SIZE && kind < U16_SIZE && storage < U16_SIZE
    modifies d
    ensures d.store.Valid() && Brackets(old(d.log), d.log, RECORD_OPS)
    ensures |data| > 0xffff ==> !ok && d.store == old(d.store) && d.log == old(d.log)
    ensures MayCreate(old(d.store), parent, kind, data, d.store)
    ensures ok ==> 0 < recid < U16_SIZE && Creates(old(d.store), parent, kind, data, recid, d.store)
    ensures ok <==> Accepted(old(d.log), d.log, 4)
    ensures ok ==> WentWell(old(d.log), d.log, MUTATIONS)
  {
    hide Answers, Decode, Creates, Brackets, WentWell, Prompt;
    ok, recid := false, 0;
    ghost var log, before := d.log, d.store;
    NothingSaid(log, RECORD_OPS);
    if |data| > 0xffff { return; }
    var info := DbInfo(d);
    OneQuestion(log, d.log, RECORD_OPS);
    if !info { return; }
    ghost var said := d.log;
    var enabled := EnableWrites(d);
    OneQuestion(said, d.log, RECORD_OPS);
    Continued(log, said, d.log, RECORD_OPS);
    if !enabled { return; }
    var n, rsp := d.Transfer(App(RecordBytes(parent, kind, storage, data)), REPLY_MAX);
    RecordAnswered(d.limit, before, parent, kind, storage, data, d.store, n, rsp);
    if n >= 0 && StatusOk(rsp) && n >= 4 { ok, recid := true, Rd16(rsp, 2); }
    var cleanupOk := CallCleanups(d);
    OneMutation(said, d.log, App(RecordBytes(parent, kind, storage, data)), RECORD_OPS);
    Continued(log, said, d.log, RECORD_OPS);
    if !cleanupOk { ok := false; }
  }

  /** The store with the storage record in place, if it had none. */
  predicate StorageEnsured(before: Store, after: Store) {
    after == before
      || (before.db.None? && after.db.Some? && after == before.(db := Some(Storage(after.db.value.dbid, []))))
  }

  lemma StorageCreated(before: Store, after: Store)
    requires before.db.None? && MayCreate(before, 1, KIND_STORAGE, STORAGE_NAME, after)
    ensures StorageEnsured(before, after)
  {
  }

  /** ensure_storage: no user and no flash byte changes; success gives the id of the storage that is there, and every
      mutation it took went well. */
  method EnsureStorage(d: Device) returns (ok: bool, dbid: nat)
    requires d.store.Valid()
    modifies d
    ensures d.store.Valid() && Brackets(old(d.log), d.log, RECORD_OPS)
            && (ok ==> WentWell(old(d.log), d.log, MUTATIONS))
    ensures StorageEnsured(old(d.store), d.store)
    ensures ok ==> d.store.db.Some? && dbid == d.store.db.value.dbid < U16_SIZE
  {
    hide Creates, Brackets, WentWell, MayCreate;
    ghost var before, log := d.store, d.log;
    var rc, stg := GetUserStorage(d, STORAGE_NAME);
    StorageNeedsNoBracket(STORAGE_NAME);
    OneQuestion(log, d.log, RECORD_OPS);
    if rc == Failed { return false, 0; }
    if rc == No {
      ghost var said := d.log;
      var made, _ := NewRecord(d, 1, KIND_STORAGE, 3, STORAGE_NAME);
      StorageCreated(before, d.store);
      Continued(log, said, d.log, RECORD_OPS);
      if !made { return false, 0; }
      said := d.log;
      rc, stg := GetUserStorage(d, STORAGE_NAME);
      OneQuestion(said, d.log, RECORD_OPS);
      Continued(log, said, d.log, RECORD_OPS);
      if rc != Yes { return false, 0; }
    }
    return true, stg.dbid;
  }

  lemma LookupAnswered(limit: nat, before: Store, storage: nat, identity: bytes, after: Store, n: int, rsp: bytes)
    requires before.Valid() && storage < U16_SIZE && |identity| <= 256
    requires Answers(limit, before, App(LookupBytes(storage, identity)), after, REPLY_MAX, n, rsp)
    ensures after == before && (n >= 0 ==> n == |rsp|)
    ensures n >= 0 && SaysNotFound(rsp) ==> IndexOfIdentity(before.Users(), identity).None?
    ensures n >= 0 && StatusOk(rsp) ==> n == 4 && HasUser(before.Users(), identity, Rd16(rsp, 2))
  {
    hide Decode, IndexOfIdentity, HasUser, Honest;
    LookupDecodes(storage, identity);
    if n >= 0 && StatusOk(rsp) { FoundParses(before, storage, identity, after, rsp, limit); }
    if n >= 0 && SaysNotFound(rsp) { NotFoundIsHonest(before, storage, identity, rsp); }
  }

  lemma NotFoundIsHonest(before: Store, storage: nat, identity: bytes, rsp: bytes)
    requires Honest(before, LookupCmd(storage, identity), rsp) && SaysNotFound(rsp)
    ensures IndexOfIdentity(before.Users(), identity).None?
  {
  }

  lemma FoundParses(before: Store, storage: nat, identity: bytes, after: Store, rsp: bytes, limit: nat)
    requires before.Valid() && Performs(limit, before, LookupCmd(storage, identity), after, rsp)
    ensures after == before && |rsp| == 4 && HasUser(before.Users(), identity, Rd16(rsp, 2))
  {
    var at := IndexOfIdentity(before.Users(), identity).value;
    IndexOfIdentityInBounds(before.Users(), identity);
    FieldAt16(U16(0), before.Users()[at].dbid, []);
    assert U16(0) + U16(before.Users()[at].dbid) + [] == rsp;
  }

  predicate HasUser(users: seq<User>, identity: bytes, dbid: nat) {
    exists i :: 0 <= i < |users| && users[i].identity == identity && users[i].dbid == dbid
  }

  /** lookup_user: `Yes` names the record of a user with that identity, `No` means there is none. */
  method LookupUser(d: Device, identity: bytes) returns (rc: Found, dbid: nat)
    requires d.store.Valid()
    modifies d
    ensures d.store.Valid() && Brackets(old(d.log), d.log, RECORD_OPS)
            && (rc != Failed ==> WentWell(old(d.log), d.log, MUTATIONS))
    ensures StorageEnsured(old(d.store), d.store)
    ensures |identity| > 256 ==> rc == Failed && d.log == old(d.log)
    ensures rc == Yes ==> dbid < U16_SIZE && HasUser(d.store.Users(), identity, dbid)
    ensures rc == No ==> IndexOfIdentity(d.store.Users(), identity).None?
  {
    hide Answers, Decode, Brackets, WentWell, HasUser, Prompt;
    ghost var log := d.log;
    NothingSaid(log, RECORD_OPS);
    if |identity| > 256 { return Failed, 0; }
    var ok, storage := EnsureStorage(d);
    if !ok { return Failed, 0; }
    ghost var said, before := d.log, d.store;
    var n, rsp := d.Transfer(App(LookupBytes(storage, identity)), REPLY_MAX);
    LookupAnswered(d.limit, before, storage, identity, d.store, n, rsp);
    OneQuestion(said, d.log, RECORD_OPS);
    Continued(log, said, d.log, RECORD_OPS);
    if n < 2 { return Failed, 0; }
    if Rd16(rsp, 0) == NOT_FOUND { return No, 0; }
    if !StatusOk(rsp) || n < 4 { return Failed, 0; }
    return Yes, Rd16(rsp, 2);
  }

  // ---------- saving a print ----------

  predicate OneUserPerIdentity(users: seq<User>) {
    forall i, j :: 0 <= i < j < |users| ==> users[i].identity != users[j].identity
  }

  /** The users after new_user: as they were, or one more at the end. */
  predicate UserAdded(before: seq<User>, after: seq<User>, identity: bytes) {
    |after| == |before| + 1 && before == after[..|before|] && after[|before|].identity == identity
      && after[|before|].fingers == []
  }

  /** The users after new_finger: one user has one more finger, and nothing else is different. */
  predicate FingerAdded(before: seq<User>, after: seq<User>, identity: bytes, record: bytes) {
    && |after| == |before|
    && exists at :: 0 <= at < |before| && before[at].identity == identity && AddsFinger(before, after, at, record)
  }

  predicate AddsFinger(before: seq<User>, after: seq<User>, at: nat, record: bytes)
    requires |after| == |before| > at
  {
    && (forall i :: 0 <= i < |before| && i != at ==> after[i] == before[i])
    && after[at].dbid == before[at].dbid && after[at].identity == before[at].identity
    && |after[at].fingers| == |before[at].fingers| + 1
    && before[at].fingers == after[at].fingers[..|before[at].fingers|]
    && after[at].fingers[|before[at].fingers|].data == record
  }

  lemma UserCreated(before: Store, parent: nat, identity: bytes, id: nat, after: Store)
    requires before.db.Some? && Creates(before, parent, KIND_USER, identity, id, after)
    ensures UserAdded(before.Users(), after.Users(), identity) && HasUser(after.Users(), identity, id)
  {
    assert after.Users()[|before.Users()|] == User(id, identity, []);
  }

  lemma FingerCreated(before: Store, parent: nat, identity: bytes, record: bytes, id: nat, after: Store)
    requires before.Valid() && HasUser(before.Users(), identity, parent)
    requires Creates(before, parent, KIND_FINGER, record, id, after)
    ensures FingerAdded(before.Users(), after.Users(), identity, record)
  {
    var at := IndexOfUser(before.Users(), parent).value;
    IndexOfUserInBounds(before.Users(), parent);
    assert before.Users()[at].identity == identity;
    assert AddsFinger(before.Users(), after.Users(), at, record);
  }

  /** new_user. */
  method NewUserRecord(d: Device, identity: bytes) returns (ok: bool, dbid: nat)
    requires d.store.Valid()
    modifies d
    ensures d.store.Valid() && Brackets(old(d.log), d.log, RECORD_OPS)
            && (ok ==> WentWell(old(d.log), d.log, MUTATIONS))
    ensures d.store.Users() == old(d.store).Users() || UserAdded(old(d.store).Users(), d.store.Users(), identity)
    ensures ok ==> dbid < U16_SIZE && UserAdded(old(d.store).Users(), d.store.Users(), identity)
                   && HasUser(d.store.Users(), identity, dbid)
  {
    hide Creates, Brackets, WentWell, UserAdded, HasUser;
    ghost var log := d.log;
    var found, storage := EnsureStorage(d);
    if !found { return false, 0; }
    ghost var before, said := d.store, d.log;
    ok, dbid := NewRecord(d, storage, KIND_USER, storage, identity);
    Continued(log, said, d.log, RECORD_OPS);
    if d.store != before {
      ghost var id: nat :| Creates(before, storage, KIND_USER, identity, id, d.store);
      UserCreated(before, storage, identity, id, d.store);
    }
    if ok { UserCreated(before, storage, identity, dbid, d.store); }
  }

  /** new_finger. */
  method NewFingerRecord(d: Device, user: nat, ghost identity: bytes, record: bytes) returns (ok: bool, dbid: nat)
    requires d.store.Valid() && user < U16_SIZE && HasUser(d.store.Users(), identity, user)
    modifies d
    ensures d.store.Valid() && Brackets(old(d.log), d.log, RECORD_OPS)
            && (ok ==> WentWell(old(d.log), d.log, MUTATIONS))
    ensures d.store.Users() == old(d.store).Users()
            || FingerAdded(old(d.store).Users(), d.store.Users(), identity, record)
    ensures ok ==> |record| <= 0xffff && FingerAdded(old(d.store).Users(), d.store.Users(), identity, record)
  {
    hide Creates, Brackets, WentWell, FingerAdded, HasUser;
    ghost var log := d.log;
    var found, storage := EnsureStorage(d);
    if !found { return false, 0; }
    ghost var before, said := d.store, d.log;
    ok, dbid := NewRecord(d, user, KIND_FINGER, storage, record);
    Continued(log, said, d.log, RECORD_OPS);
    if d.store != before {
      ghost var id: nat :| Creates(before, user, KIND_FINGER, record, id, d.store);
      FingerCreated(before, user, identity, record, id, d.store);
    }
    if ok { FingerCreated(before, user, identity, record, dbid, d.store); }
  }

  /** How far a save got. */
  ghost predicate Saving(before: seq<User>, after: seq<User>, identity: bytes, record: bytes, complete: bool) {
    exists mid :: SavesVia(before, mid, after, identity, record, complete)
  }

  predicate SavesVia(before: seq<User>, mid: seq<User>, after: seq<User>, identity: bytes, record: bytes,
                     complete: bool)
  {
    && (mid == before || (IndexOfIdentity(before, identity).None? && UserAdded(before, mid, identity)))
    && if complete then FingerAdded(mid, after, identity, record) else after == mid
  }

  /** How a save ends: `Refused` when there was a user, and the finger was tried and failed. */
  datatype SaveResult = Saved | Unsaved | Refused

  /** The end of an enrollment: look the user up or create it, and give it the finger. Whatever the sensor answers, a
      user is only created when no user has the identity; success means the user with the identity has the finger, and
      only a refusal can leave it there all the same. */
  method SavePrint(d: Device, identity: bytes, record: bytes) returns (r: SaveResult)
    requires d.store.Valid()
    modifies d
    ensures d.store.Valid() && Brackets(old(d.log), d.log, RECORD_OPS)
            && (r.Saved? ==> WentWell(old(d.log), d.log, MUTATIONS))
    ensures (!r.Unsaved? && Saving(old(d.store).Users(), d.store.Users(), identity, record, true))
            || (!r.Saved? && Saving(old(d.store).Users(), d.store.Users(), identity, record, false))
  {
    hide Brackets, WentWell, UserAdded, FingerAdded, HasUser;
    ghost var users, log := d.store.Users(), d.log;
    var lk, user := LookupUser(d, identity);
    assert d.store.Users() == users;
    assert SavesVia(users, users, users, identity, record, false);
    if lk == Failed { return Unsaved; }
    ghost var said := d.log;
    if lk == No {
      var made;
      made, user := NewUserRecord(d, identity);
      Continued(log, said, d.log, RECORD_OPS);
      if d.store.Users() != users { assert SavesVia(users, d.store.Users(), d.store.Users(), identity, record, false); }
      if !made { return Unsaved; }
      said := d.log;
    }
    ghost var mid := d.store.Users();
    var ok, finger := NewFingerRecord(d, user, identity, record);
    Continued(log, said, d.log, RECORD_OPS);
    if d.store.Users() != mid || ok { assert SavesVia(users, mid, d.store.Users(), identity, record, true); }
    return if ok then Saved else Refused;
  }

  /** However far a save gets, it keeps at most one user per identity and loses no user and no finger; when it
      completes, the user with the identity holds the new finger. */
  lemma SaveIsSafe(before: seq<User>, after: seq<User>, identity: bytes, record: bytes, complete: bool)
    requires Saving(before, after, identity, record, complete)
    ensures OneUserPerIdentity(before) ==> OneUserPerIdentity(after)
    ensures |before| <= |after|
    ensures forall i :: 0 <= i < |before| ==>
              after[i].identity == before[i].identity && before[i].fingers <= after[i].fingers
    ensures complete ==>
              exists i :: 0 <= i < |after| && after[i].identity == identity && after[i].fingers != []
                          && after[i].fingers[|after[i].fingers| - 1].data == record
  {
    IndexOfIdentityInBounds(before, identity);
  }
}
