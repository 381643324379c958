/** The Metallica sensor as a device: it takes packed commands, keeps flash partitions and the tree of
    storage, users and fingers, and answers with packed replies. It may lose an answer or refuse a command,
    but what it says about its own records is true. */
module Sensor {
  import opened Options
  import opened Bytes

  /** What goes over the secure session: the fixed write-enable blob, or an application command. */
  datatype Message = WriteEnable | App(cmd: bytes)

  const CLEANUP := App([0x1a])

  // ---------- commands ----------

  datatype Command =
    | EnableCmd
    | CleanupCmd
    | EraseCmd(partition: byte)
    | WriteCmd(partition: byte, addr: nat, data: bytes)
    | ReadCmd(partition: byte, addr: nat, size: nat)
    | InfoCmd
    | StorageCmd(name: bytes)
    | LookupCmd(storage: nat, identity: bytes)
    | DeleteCmd(dbid: nat)
    | RecordCmd(parent: nat, kind: nat, storage: nat, data: bytes)
    | OtherCmd

  /** How the device reads a command, byte by byte. */
  function Decode(m: Message): Command {
    if m.WriteEnable? then EnableCmd
    else
      var c := m.cmd;
      if c == [0x1a] then CleanupCmd
      else if |c| == 2 && c[0] == 0x3f then EraseCmd(c[1])
      else if |c| >= 13 && c[0] == 0x41 && c[2] == 1 && Rd16(c, 3) == 0 && Rd32(c, 9) == |c| - 13 then
        WriteCmd(c[1], Rd32(c, 5), c[13..])
      else if |c| == 13 && c[0] == 0x40 && c[2] == 1 && Rd16(c, 3) == 0 then ReadCmd(c[1], Rd32(c, 5), Rd32(c, 9))
      else if c == [0x45] then InfoCmd
      else if |c| >= 5 && c[0] == 0x4b && Rd16(c, 1) == 0 && Rd16(c, 3) == |c| - 5 then StorageCmd(c[5..])
      else if |c| >= 7 && c[0] == 0x4a && Rd16(c, 1) == 0 && Rd16(c, 5) == |c| - 7 then LookupCmd(Rd16(c, 3), c[7..])
      else if |c| == 3 && c[0] == 0x48 then DeleteCmd(Rd16(c, 1))
      else if |c| >= 9 && c[0] == 0x47 && Rd16(c, 7) == |c| - 9 then
        RecordCmd(Rd16(c, 1), Rd16(c, 3), Rd16(c, 5), c[9..])
      else OtherCmd
  }

  /** Commands that change what the sensor keeps, and so must be bracketed: erase, flash write, new record
      and enrollment update. All but the last change its flash or its records. */
  const FLASH_OPS: set<int> := {0x3f, 0x41}
  const RECORD_OPS: set<int> := {0x47}
  const UPDATE_OPS: set<int> := {0x6b}
  const LASTING: set<int> := {0x3f, 0x41, 0x47}
  const MUTATIONS: set<int> := {0x3f, 0x41, 0x47, 0x6b}

  predicate IsOp(m: Message, ops: set<int>) { m.App? && m.cmd != [] && m.cmd[0] in ops }

  predicate Mutating(m: Message) { IsOp(m, MUTATIONS) }

  predicate StatusOk(rsp: bytes) { |rsp| >= 2 && Rd16(rsp, 0) == 0 }

  const NOTHING_TO_COMMIT := 0x0491

  predicate CleanedUp(rsp: bytes) { StatusOk(rsp) || (|rsp| >= 2 && Rd16(rsp, 0) == NOTHING_TO_COMMIT) }

  // ---------- the conversation ----------

  /** A message, and the reply the host got to it: [] when it got none. */
  datatype Exchange = Exchange(sent: Message, reply: bytes)

  type Log = seq<Exchange>

  /** The log has grown by just these messages. */
  predicate Sent(before: Log, after: Log, messages: seq<Message>) {
    && before <= after && |after| == |before| + |messages|
    && forall i :: |before| <= i < |after| ==> after[i].sent == messages[i - |before|]
  }

  /** The new part of the log holds no mutation but of these kinds, and each of them stands directly between the
      write-enable blob and the cleanup. */
  predicate Brackets(before: Log, after: Log, ops: set<int>) {
    && before <= after
    && forall i :: |before| <= i < |after| && Mutating(after[i].sent) ==>
         && IsOp(after[i].sent, ops)
         && |before| < i && after[i - 1].sent == WriteEnable && i + 1 < |after| && after[i + 1].sent == CLEANUP
  }

  /** The new part of the log holds no mutation at all. */
  predicate Asks(before: Log, after: Log) {
    before <= after && forall i :: |before| <= i < |after| ==> !Mutating(after[i].sent)
  }

  /** In the new part of the log every operation of these kinds was answered with status 0, and its cleanup well. */
  predicate WentWell(before: Log, after: Log, ops: set<int>) {
    && before <= after
    && forall i :: |before| <= i < |after| && IsOp(after[i].sent, ops) ==>
         StatusOk(after[i].reply) && i + 1 < |after| && CleanedUp(after[i + 1].reply)
  }

  /** Of the last two replies, the one to a mutation and the one to its cleanup: both were good. */
  predicate Accepted(before: Log, after: Log, messages: nat)
    requires messages >= 2
  {
    |after| == |before| + messages && StatusOk(after[|after| - 2].reply) && CleanedUp(after[|after| - 1].reply)
  }

  lemma OnlyAsked(before: Log, after: Log, ops: set<int>)
    requires Asks(before, after)
    ensures Brackets(before, after, ops) && WentWell(before, after, MUTATIONS)
  {
  }

  lemma AskedOn(a: Log, b: Log, c: Log)
    requires Asks(a, b) && Asks(b, c)
    ensures Asks(a, c)
  {
  }

  lemma NothingSaid(log: Log, ops: set<int>)
    ensures Asks(log, log) && Brackets(log, log, ops) && WentWell(log, log, MUTATIONS)
  {
  }

  /** One message that changes nothing. */
  lemma OneQuestion(before: Log, after: Log, ops: set<int>)
    requires before <= after && |after| == |before| + 1 && !Mutating(after[|before|].sent)
    ensures Asks(before, after) && Brackets(before, after, ops) && WentWell(before, after, MUTATIONS)
  {
  }

  /** A mutation sent as it should be. */
  lemma OneMutation(before: Log, after: Log, m: Message, ops: set<int>)
    requires Sent(before, after, [WriteEnable, m, CLEANUP]) && IsOp(m, ops)
    ensures Brackets(before, after, ops)
    ensures Accepted(before, after, 3) ==> WentWell(before, after, MUTATIONS)
  {
    var n := |before|;
    assert after[n].sent == WriteEnable && after[n + 1].sent == m && after[n + 2].sent == CLEANUP;
  }

  lemma Continued(a: Log, b: Log, c: Log, ops: set<int>)
    requires Brackets(a, b, ops) && Brackets(b, c, ops)
    ensures Brackets(a, c, ops)
    ensures WentWell(a, b, MUTATIONS) && WentWell(b, c, MUTATIONS) ==> WentWell(a, c, MUTATIONS)
  {
  }

  lemma OfMoreKinds(before: Log, after: Log, ops: set<int>, more: set<int>)
    requires Brackets(before, after, ops) && ops <= more
    ensures Brackets(before, after, more)
  {
  }

  lemma LastingWentWell(before: Log, after: Log)
    requires WentWell(before, after, MUTATIONS) || Brackets(before, after, UPDATE_OPS)
    ensures WentWell(before, after, LASTING)
  {
  }

  lemma LastingContinued(a: Log, b: Log, c: Log)
    requires WentWell(a, b, LASTING) && WentWell(b, c, LASTING)
    ensures WentWell(a, c, LASTING)
  {
  }

  // ---------- what the device keeps ----------

  datatype Finger = Finger(dbid: nat, data: bytes)

  datatype User = User(dbid: nat, identity: bytes, fingers: seq<Finger>)

  datatype Storage = Storage(dbid: nat, users: seq<User>)

  datatype Store = Store(flash: map<byte, bytes>, db: Option<Storage>) {

    function Users(): seq<User> { if db.Some? then db.value.users else [] }

    /** Partition sizes and record ids fit their fields, and a user's id names one user. */
    predicate Valid() {
      && (forall p :: p in flash ==> |flash[p]| < U32_SIZE)
      && (db.Some? ==> 0 < db.value.dbid < U16_SIZE)
      && |Users()| < U16_SIZE
      && (forall i :: 0 <= i < |Users()| ==> 0 < Users()[i].dbid < U16_SIZE)
      && (forall i, j :: 0 <= i < j < |Users()| ==> Users()[i].dbid != Users()[j].dbid)
    }
  }

  /** "StgWindsor" with its terminating NUL. */
  const STORAGE_NAME: bytes := [0x53, 0x74, 0x67, 0x57, 0x69, 0x6e, 0x64, 0x73, 0x6f, 0x72, 0]

  const NOT_FOUND := 0x04b3

  function Blank(size: nat): bytes { seq(size, _ => ERASED) }

  /** Programming data into flash at addr: bits are only cleared. */
  function Programmed(part: bytes, addr: nat, data: bytes): (r: bytes)
    requires addr + |data| <= |part|
    ensures |r| == |part|
  {
    seq(|part|, i requires 0 <= i < |part| =>
      if addr <= i < addr + |data| then And(part[i], data[i - addr]) else part[i])
  }

  function IndexOfUser(users: seq<User>, dbid: nat): Option<nat> {
    if users == [] then None
    else if users[0].dbid == dbid then Some(0)
    else
      var rest := IndexOfUser(users[1..], dbid);
      if rest.Some? then Some(rest.value + 1) else None
  }

  function IndexOfIdentity(users: seq<User>, identity: bytes): Option<nat> {
    if users == [] then None
    else if users[0].identity == identity then Some(0)
    else
      var rest := IndexOfIdentity(users[1..], identity);
      if rest.Some? then Some(rest.value + 1) else None
  }

  // ---------- what a command does, and what a good reply to it says ----------

  predicate SaysNotFound(rsp: bytes) { |rsp| >= 2 && Rd16(rsp, 0) == NOT_FOUND }

  function UserRefs(users: seq<User>): bytes {
    if users == [] then [] else U16(users[0].dbid) + U16(|users[0].identity|) + UserRefs(users[1..])
  }

  function StorageReply(s: Storage, unknown: nat): bytes {
    U16(0) + U16(s.dbid) + U16(|s.users|) + U16(|STORAGE_NAME|) + U16(unknown) + UserRefs(s.users) + STORAGE_NAME
  }

  /** A flash read carries a length and the bytes; a device that can give no more than `limit` bytes at a time
      cuts the answer short, one that gives all of them may pad it. */
  function ReadReply(part: bytes, addr: nat, size: nat, limit: nat, reserved: bytes, padding: bytes): bytes
    requires addr + size <= |part|
  {
    var got := if size <= limit then size else limit;
    var payload := part[addr..addr + got] + if size <= limit then padding else [];
    U16(0) + U32(|payload|) + reserved + payload
  }

  predicate NewUser(before: Storage, after: Storage, dbid: nat, identity: bytes) {
    after == before.(users := before.users + [User(dbid, identity, [])])
  }

  predicate NewFinger(before: Storage, after: Storage, parent: nat, dbid: nat, data: bytes) {
    var at := IndexOfUser(before.users, parent);
    && at.Some? && at.value < |before.users|
    && var u := before.users[at.value];
       after == before.(users := before.users[at.value := u.(fingers := u.fingers + [Finger(dbid, data)])])
  }

  /** A command carried out: the device goes from `before` to `after` and answers `rsp`, status word 0 included. */
  ghost predicate Performs(limit: nat, before: Store, c: Command, after: Store, rsp: bytes) {
    && StatusOk(rsp)
    && match c
       case EraseCmd(p) => p in before.flash && after == before.(flash := before.flash[p := Blank(|before.flash[p]|)])
       case WriteCmd(p, addr, data) =>
         && p in before.flash && addr + |data| <= |before.flash[p]|
         && after == before.(flash := before.flash[p := Programmed(before.flash[p], addr, data)])
       case ReadCmd(p, addr, size) =>
         && after == before && p in before.flash && addr + size <= |before.flash[p]|
         && exists reserved: bytes, padding: bytes ::
              |reserved| == 2 && rsp == ReadReply(before.flash[p], addr, size, limit, reserved, padding)
       case InfoCmd => after == before && |rsp| >= 2 + 0x18
       case StorageCmd(name) =>
         after == before && before.db.Some? && exists unknown: nat :: rsp == StorageReply(before.db.value, unknown)
       case LookupCmd(_, identity) =>
         var at := IndexOfIdentity(before.Users(), identity);
         && after == before && at.Some? && at.value < |before.Users()|
         && rsp == U16(0) + U16(before.Users()[at.value].dbid)
       case DeleteCmd(dbid) =>
         var at := IndexOfUser(before.Users(), dbid);
         && at.Some? && at.value < |before.Users()| && before.db.Some?
         && var users := before.Users();
            after == before.(db := Some(before.db.value.(users := users[..at.value] + users[at.value + 1..])))
       case RecordCmd(parent, kind, storage, data) =>
         exists dbid: nat :: 0 < dbid < U16_SIZE && rsp == U16(0) + U16(dbid)
           && Creates(before, parent, kind, data, dbid, after)
       case EnableCmd => after == before
       case CleanupCmd => after == before
       case OtherCmd => after == before
  }

  ghost predicate Creates(before: Store, parent: nat, kind: nat, data: bytes, dbid: nat, after: Store) {
    && (forall i :: 0 <= i < |before.Users()| ==> before.Users()[i].dbid != dbid)
    && if kind == 4 then
         parent == 1 && before.db.None? && after == before.(db := Some(Storage(dbid, [])))
       else if kind == 5 then
         && before.db.Some? && after.db.Some? && after.flash == before.flash
         && parent == before.db.value.dbid && NewUser(before.db.value, after.db.value, dbid, data)
       else
         && kind == 0xb && before.db.Some? && after.db.Some? && after.flash == before.flash
         && NewFinger(before.db.value, after.db.value, parent, dbid, data)
  }

  /** "Not found" is only said when it is so. */
  ghost predicate Honest(before: Store, c: Command, rsp: bytes) {
    SaysNotFound(rsp) ==>
      match c
      case StorageCmd(_) => before.db.None?
      case LookupCmd(_, identity) => IndexOfIdentity(before.Users(), identity).None?
      case _ => true
  }

  /** Every way an exchange can end. The answer may be lost, with the command carried out or not; the command
      may be refused; or it is carried out and the reply arrives, if it fits the caller's buffer. */
  ghost predicate Answers(limit: nat, before: Store, m: Message, after: Store, cap: nat, n: int, rsp: bytes) {
    var c := Decode(m);
    || (n < 0 && (after == before || exists r: bytes :: Performs(limit, before, c, after, r)))
    || (n == |rsp| <= cap && !StatusOk(rsp) && after == before && Honest(before, c, rsp))
    || (n == |rsp| <= cap && Performs(limit, before, c, after, rsp))
  }

  /** What a reliable sensor adds: it carries out what it can, and the answer arrives if it fits. */
  ghost predicate Prompt(before: Store, m: Message, n: int, rsp: bytes, cap: nat) {
    match Decode(m)
    case StorageCmd(_) =>
      if before.db.None? then 2 <= cap ==> n >= 0 && SaysNotFound(rsp)
      else 21 + 4 * |before.Users()| <= cap ==> n >= 0 && StatusOk(rsp)
    case DeleteCmd(dbid) => IndexOfUser(before.Users(), dbid).Some? && 2 <= cap ==> n >= 0 && StatusOk(rsp)
    case _ => true
  }

  lemma {:induction false} IndexOfUserInBounds(users: seq<User>, dbid: nat)
    ensures var at := IndexOfUser(users, dbid); at.Some? ==> at.value < |users| && users[at.value].dbid == dbid
    ensures IndexOfUser(users, dbid).None? <==> forall i :: 0 <= i < |users| ==> users[i].dbid != dbid
  {
    if users != [] {
      IndexOfUserInBounds(users[1..], dbid);
      if users[0].dbid != dbid {
        assert forall i :: 1 <= i < |users| ==> users[i] == users[1..][i - 1];
      }
    }
  }

  lemma {:induction false} IndexOfIdentityInBounds(users: seq<User>, identity: bytes)
    ensures var at := IndexOfIdentity(users, identity);
            at.Some? ==> at.value < |users| && users[at.value].identity == identity
    ensures IndexOfIdentity(users, identity).None? <==> forall i :: 0 <= i < |users| ==> users[i].identity != identity
  {
    if users != [] {
      IndexOfIdentityInBounds(users[1..], identity);
      if users[0].identity != identity {
        assert forall i :: 1 <= i < |users| ==> users[i] == users[1..][i - 1];
      }
    }
  }

  lemma {:induction false} UserRefsLength(users: seq<User>)
    ensures |UserRefs(users)| == 4 * |users|
  {
    if users != [] { UserRefsLength(users[1..]); }
  }

  // ---------- the device itself ----------

  const REFUSED: (bytes) := []

  /** The effect of a command and the reply to it; a reply of [] stands for a refusal. `spare` is the id the device
      would give a new record, and `more` what it has to say to a command whose answer is its own affair: a scan, an
      update, a calibration read. */
  function Serve(limit: nat, store: Store, c: Command, spare: nat, more: bytes): (Store, bytes) {
    match c
    case EnableCmd => (store, U16(0))
    case CleanupCmd => (store, U16(0))
    case OtherCmd => (store, U16(0) + more)
    case InfoCmd => (store, U16(0) + seq(0x18, _ => 0))
    case EraseCmd(p) =>
      if p in store.flash then (store.(flash := store.flash[p := Blank(|store.flash[p]|)]), U16(0))
      else (store, REFUSED)
    case WriteCmd(p, addr, data) =>
      if p in store.flash && addr + |data| <= |store.flash[p]| then
        (store.(flash := store.flash[p := Programmed(store.flash[p], addr, data)]), U16(0))
      else (store, REFUSED)
    case ReadCmd(p, addr, size) =>
      if p in store.flash && addr + size <= |store.flash[p]| then
        (store, ReadReply(store.flash[p], addr, size, limit, [0, 0], []))
      else (store, REFUSED)
    case StorageCmd(_) =>
      (store, if store.db.None? then U16(NOT_FOUND) else StorageReply(store.db.value, 0))
    case LookupCmd(_, identity) =>
      var at := IndexOfIdentity(store.Users(), identity);
      (store,
       if at.Some? && at.value < |store.Users()| then U16(0) + U16(store.Users()[at.value].dbid) else U16(NOT_FOUND))
    case DeleteCmd(dbid) =>
      var at := IndexOfUser(store.Users(), dbid);
      if at.Some? && at.value < |store.Users()| then
        var left := store.Users()[..at.value] + store.Users()[at.value + 1..];
        (store.(db := Some(store.db.value.(users := left))), U16(0))
      else (store, REFUSED)
    case RecordCmd(parent, kind, _, data) =>
      var created := Created(store, parent, kind, data, spare);
      if created.Some? then (created.value, U16(0) + U16(spare)) else (store, REFUSED)
  }

  function Created(store: Store, parent: nat, kind: nat, data: bytes, spare: nat): Option<Store> {
    if !(0 < spare < U16_SIZE) || IndexOfUser(store.Users(), spare).Some? || |store.Users()| + 1 >= U16_SIZE then None
    else if kind == 4 then
      if parent == 1 && store.db.None? then Some(store.(db := Some(Storage(spare, [])))) else None
    else if store.db.None? then None
    else if kind == 5 then
      if parent == store.db.value.dbid then
        Some(store.(db := Some(store.db.value.(users := store.Users() + [User(spare, data, [])]))))
      else None
    else
      var at := IndexOfUser(store.Users(), parent);
      if kind == 0xb && at.Some? && at.value < |store.Users()| then
        var u := store.Users()[at.value];
        var u' := u.(fingers := u.fingers + [Finger(spare, data)]);
        Some(store.(db := Some(store.db.value.(users := store.Users()[at.value := u']))))
      else None
  }

  lemma CreatedIsCreation(store: Store, parent: nat, kind: nat, data: bytes, spare: nat)
    requires store.Valid()
    ensures var r := Created(store, parent, kind, data, spare);
            r.Some? ==> 0 < spare < U16_SIZE && Creates(store, parent, kind, data, spare, r.value)
  {
    IndexOfUserInBounds(store.Users(), spare);
  }

  lemma CreatedIsValid(store: Store, parent: nat, kind: nat, data: bytes, spare: nat)
    requires store.Valid()
    ensures var r := Created(store, parent, kind, data, spare); r.Some? ==> r.value.Valid()
  {
    IndexOfUserInBounds(store.Users(), spare);
  }

  ghost predicate GoodService(limit: nat, store: Store, c: Command, after: Store, rsp: bytes) {
    && after.Valid()
    && (if StatusOk(rsp) then Performs(limit, store, c, after, rsp) else after == store && Honest(store, c, rsp))
  }

  /** What the device serves is what `Performs` asks for, and its store stays well formed. */
  lemma ServeIsGood(limit: nat, store: Store, c: Command, spare: nat, more: bytes)
    requires store.Valid()
    ensures var (after, rsp) := Serve(limit, store, c, spare, more); GoodService(limit, store, c, after, rsp)
  {
    hide Serve, GoodService;
    match c
    case RecordCmd(_, _, _, _) => RecordIsGood(limit, store, c, spare, more);
    case LookupCmd(_, _) => LookupIsGood(limit, store, c, spare, more);
    case DeleteCmd(_) => DeleteIsGood(limit, store, c, spare, more);
    case ReadCmd(_, _, _) => ReadIsGood(limit, store, c, spare, more);
    case StorageCmd(_) => StorageIsGood(limit, store, c, spare, more);
    case EraseCmd(_) => FlashIsGood(limit, store, c, spare, more);
    case WriteCmd(_, _, _) => FlashIsGood(limit, store, c, spare, more);
    case _ => RestIsGood(limit, store, c, spare, more);
  }

  lemma RecordIsGood(limit: nat, store: Store, c: Command, spare: nat, more: bytes)
    requires store.Valid() && c.RecordCmd?
    ensures var (after, rsp) := Serve(limit, store, c, spare, more); GoodService(limit, store, c, after, rsp)
  {
    hide Created, Creates;
    CreatedIsCreation(store, c.parent, c.kind, c.data, spare);
    CreatedIsValid(store, c.parent, c.kind, c.data, spare);
    if Created(store, c.parent, c.kind, c.data, spare).Some? { IdParses(spare); }
  }

  lemma LookupIsGood(limit: nat, store: Store, c: Command, spare: nat, more: bytes)
    requires store.Valid() && c.LookupCmd?
    ensures var (after, rsp) := Serve(limit, store, c, spare, more); GoodService(limit, store, c, after, rsp)
  {
    IndexOfIdentityInBounds(store.Users(), c.identity);
  }

  lemma DeleteIsGood(limit: nat, store: Store, c: Command, spare: nat, more: bytes)
    requires store.Valid() && c.DeleteCmd?
    ensures var (after, rsp) := Serve(limit, store, c, spare, more); GoodService(limit, store, c, after, rsp)
  {
    hide IndexOfUser;
  }

  lemma ReadIsGood(limit: nat, store: Store, c: Command, spare: nat, more: bytes)
    requires store.Valid() && c.ReadCmd?
    ensures var (after, rsp) := Serve(limit, store, c, spare, more); GoodService(limit, store, c, after, rsp)
  {
    hide ReadReply;
    if c.partition in store.flash && c.addr + c.size <= |store.flash[c.partition]| {
      RepliesAreOk(store.flash[c.partition], c.addr, c.size, limit);
    }
  }

  lemma StorageIsGood(limit: nat, store: Store, c: Command, spare: nat, more: bytes)
    requires store.Valid() && c.StorageCmd?
    ensures var (after, rsp) := Serve(limit, store, c, spare, more); GoodService(limit, store, c, after, rsp)
  {
    hide StorageReply;
    if store.db.Some? { StorageIsOk(store.db.value); }
  }

  lemma FlashIsGood(limit: nat, store: Store, c: Command, spare: nat, more: bytes)
    requires store.Valid() && (c.EraseCmd? || c.WriteCmd?)
    ensures var (after, rsp) := Serve(limit, store, c, spare, more); GoodService(limit, store, c, after, rsp)
  {
  }

  lemma RestIsGood(limit: nat, store: Store, c: Command, spare: nat, more: bytes)
    requires store.Valid() && (c.EnableCmd? || c.CleanupCmd? || c.OtherCmd? || c.InfoCmd?)
    ensures var (after, rsp) := Serve(limit, store, c, spare, more); GoodService(limit, store, c, after, rsp)
  {
  }

  lemma IdParses(id: nat)
    requires id < U16_SIZE
    ensures StatusOk(U16(0) + U16(id))
  {
  }

  lemma RepliesAreOk(part: bytes, addr: nat, size: nat, limit: nat)
    requires addr + size <= |part|
    ensures StatusOk(ReadReply(part, addr, size, limit, [0, 0], []))
  {
  }

  lemma StorageIsOk(s: Storage)
    ensures StatusOk(StorageReply(s, 0))
  {
  }

  /** A reliable device answers a storage request or a deletion it can serve, if the answer fits. */
  lemma ServeIsPrompt(limit: nat, store: Store, m: Message, spare: nat, more: bytes, cap: nat)
    ensures var (_, rsp) := Serve(limit, store, Decode(m), spare, more);
            var arrives := |rsp| <= cap;
            Prompt(store, m, if arrives then |rsp| else -1, if arrives then rsp else [], cap)
  {
    match Decode(m)
    case StorageCmd(_) =>
      UserRefsLength(store.Users());
    case DeleteCmd(dbid) =>
      IndexOfUserInBounds(store.Users(), dbid);
    case _ =>
  }

  /** A status word other than 0 that says nothing about the records. */
  predicate IsRefusal(status: nat) { 0 < status < U16_SIZE && status != NOT_FOUND }

  lemma RefusalIsHonest(store: Store, c: Command, status: nat)
    requires IsRefusal(status)
    ensures !StatusOk(U16(status)) && Honest(store, c, U16(status))
  {
    Rd16OfU16(status);
  }

  class Device {
    const limit: nat       // the most bytes one flash read returns
    const reliable: bool
    var store: Store
    var log: Log // every message sent to it with the reply the host got, in order

    constructor (limit: nat, reliable: bool, flash: map<byte, bytes>)
      requires forall p :: p in flash ==> |flash[p]| < U32_SIZE
      ensures this.limit == limit && this.reliable == reliable
      ensures store == Store(flash, None) && store.Valid() && log == []
    {
      this.limit, this.reliable := limit, reliable;
      store, log := Store(flash, None), [];
    }

    /** metallica_mis_tls_cmd: one command, one answer, n < 0 when none arrives. */
    method Transfer(m: Message, cap: nat) returns (n: int, rsp: bytes)
      requires store.Valid()
      modifies this
      ensures store.Valid()
      ensures log == old(log) + [Exchange(m, rsp)] && (n < 0 ==> rsp == [])
      ensures Answers(limit, old(store), m, store, cap, n, rsp) && (n >= 0 ==> n == |rsp| <= cap)
      ensures reliable ==> Prompt(old(store), m, n, rsp, cap)
    {
      var obeyed: bool, delivered: bool, spare: nat, more: bytes, refusal: nat := *, *, *, *, *;
      hide Serve, Decode, Performs, Honest, Prompt;
      ServeIsGood(limit, store, Decode(m), spare, more);
      ServeIsPrompt(limit, store, m, spare, more, cap);
      var (after, reply) := Serve(limit, store, Decode(m), spare, more);
      n, rsp := -1, [];
      if reliable || obeyed {
        store := after;
        if (reliable || delivered) && |reply| <= cap { n, rsp := |reply|, reply; }
      } else if delivered && IsRefusal(refusal) && 2 <= cap {
        n, rsp := 2, U16(refusal);
        RefusalIsHonest(store, Decode(m), refusal);
      }
      log := log + [Exchange(m, rsp)];
    }
  }
}
