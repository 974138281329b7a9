/**
 The user database in non-volatile memory: one index object holding a record per
 slot, and one credential object per user. Each mutating call of src/wh_auth_base.c
 is a short list of atomic object writes, each with the writes that undo its
 predecessors when it fails. Reload is what the next start would rebuild.
 */
module AuthStore {
  import opened Codes
  import opened Permissions
  import opened AuthDb

  const INDEX_ID := 0xFE00
  const CRED_BASE := 0xFE01
  const MAGIC: seq<byte> := [0x42, 0x41, 0x48, 0x57]

  function CredId(id: nat): nat
    requires ValidId(id)
  {
    CRED_BASE + (id - 1)
  }

  datatype Record = Record(userId: uint16, name: NameField, perms: Perms, active: bool)

  /** The compiler's layout of an array of records, as bytes. */
  datatype Layout = Layout(
    recordSize: nat,
    encode: seq<Record> -> seq<byte>,
    decode: seq<byte> -> seq<Record>)

  function IndexSize(l: Layout): nat {
    |MAGIC| + MAX_USERS * l.recordSize
  }

  /** Copying the records out and back in changes nothing; NativeLayout gives one that is sound. */
  ghost predicate SoundLayout(l: Layout) {
    && (forall rs: seq<Record> :: |rs| == MAX_USERS ==> |l.encode(rs)| == MAX_USERS * l.recordSize)
    && (forall rs: seq<Record> :: |rs| == MAX_USERS ==> l.decode(l.encode(rs)) == rs)
    && (forall b :: |l.decode(b)| == MAX_USERS)
  }

  /** An NVM object: the trailing label byte, where a credential keeps its method, and the data. */
  datatype Object = Object(tag: byte, data: seq<byte>)

  type Store = map<nat, Object>

  function Tag(how: Method): byte {
    match how
    case NoMethod => 0
    case Pin => 1
    case Certificate => 2
  }

  function MethodOf(tag: byte): Method {
    if tag == 1 then Pin else if tag == 2 then Certificate else NoMethod
  }

  function CredObject(c: Cred): Object {
    Object(Tag(c.how), c.bytes)
  }

  /** A slot as it is serialized: sessions are not persisted. */
  function RecordOf(i: nat, e: Entry): Record
    requires i < MAX_USERS
  {
    match e
    case Free => Record(NO_USER, "", NO_PERMS, false)
    case Used(a) => Record(i + 1, a.name, a.perms, false)
  }

  function Records(db: Db): (rs: seq<Record>)
    ensures |rs| == MAX_USERS
    ensures forall i | 0 <= i < MAX_USERS :: rs[i] == RecordOf(i, db[i])
  {
    seq(MAX_USERS, i requires 0 <= i < MAX_USERS => RecordOf(i, db[i]))
  }

  function IndexObject(l: Layout, db: Db): Object {
    Object(0, MAGIC + l.encode(Records(db)))
  }

  // ------------------------------------------------------------------- reload

  function CredUnder(store: Store, id: nat): (c: Option<Cred>)
    requires ValidId(id)
  {
    if CredId(id) in store then Some(Cred(MethodOf(store[CredId(id)].tag), store[CredId(id)].data)) else None
  }

  predicate CredUsable(c: Option<Cred>) {
    c.Some? ==> 0 < |c.value.bytes| <= MAX_CRED_LEN && c.value.how != NoMethod
  }

  /** One slot of the index, validated; None means the load aborts. */
  function Restore(store: Store, i: nat, r: Record): Option<Entry>
    requires i < MAX_USERS
  {
    if r.userId == NO_USER then
      if StoredName(r.name) == "" then Some(Free) else None
    else if r.userId != i + 1 || r.perms.keyIdCount > MAX_KEY_IDS then None
    else if !CredUsable(CredUnder(store, i + 1)) then None
    else Some(Used(Account(StoredName(r.name), r.perms, false, CredUnder(store, i + 1))))
  }

  predicate IndexReadable(l: Layout, store: Store) {
    && INDEX_ID in store
    && |store[INDEX_ID].data| == IndexSize(l)
    && store[INDEX_ID].data[..|MAGIC|] == MAGIC
  }

  function IndexRecords(l: Layout, store: Store): seq<Record>
    requires IndexReadable(l, store)
  {
    l.decode(store[INDEX_ID].data[|MAGIC|..])
  }

  /** The database a start of the backend rebuilds; None when it refuses to start. */
  ghost function Reload(l: Layout, store: Store): Option<Db>
    requires SoundLayout(l)
  {
    if INDEX_ID !in store then Some(EMPTY_DB)
    else if !IndexReadable(l, store) then None
    else
      var rs := IndexRecords(l, store);
      if forall i | 0 <= i < MAX_USERS :: Restore(store, i, rs[i]).Some?
      then Some(seq(MAX_USERS, i requires 0 <= i < MAX_USERS => Restore(store, i, rs[i]).value))
      else None
  }

  /** A record without a user holds nothing else either. */
  predicate CleanRecord(r: Record) {
    r.userId == NO_USER ==> r.perms == NO_PERMS
  }

  ghost predicate CleanIndex(l: Layout, store: Store)
    requires SoundLayout(l)
  {
    IndexReadable(l, store) ==> forall i | 0 <= i < MAX_USERS :: CleanRecord(IndexRecords(l, store)[i])
  }

  /** RAM and NVM say the same: a restart rebuilds this database with every session closed. */
  ghost predicate Agree(l: Layout, db: Db, store: Store)
    requires SoundLayout(l)
  {
    Reload(l, store) == Some(Inactive(db))
  }

  /** A record the start accepts: empty and nameless, or numbered by its slot, its key count in range, its credential usable. */
  predicate SlotLoads(store: Store, i: nat, r: Record)
    requires i < 5
  {
    if r.userId == 0 then r.name == []
    else
      && r.userId == i + 1 && r.perms.keyIdCount <= 2
      && (0xFE01 + i in store ==> 1 <= |store[0xFE01 + i].data| <= 2048 && store[0xFE01 + i].tag in {1, 2})
  }

  /** Exactly when a start is refused, and what it takes from an index it accepts. */
  lemma StartRefuses(l: Layout, store: Store)
    requires SoundLayout(l)
    ensures var size := 4 + 5 * l.recordSize;
      Reload(l, store).None? <==>
        && 0xFE00 in store
        && (|store[0xFE00].data| != size || store[0xFE00].data[..4] != [0x42, 0x41, 0x48, 0x57]
            || exists i | 0 <= i < 5 :: !SlotLoads(store, i, l.decode(store[0xFE00].data[4..])[i]))
    ensures Reload(l, store).Some? && 0xFE00 in store ==>
      forall i | 0 <= i < 5 ::
        var r, e := l.decode(store[0xFE00].data[4..])[i], Reload(l, store).value[i];
        if r.userId == 0 then e.Free?
        else
          && e.Used? && e.account.perms == r.perms && !e.account.active
          && e.account.name == (if |r.name| <= 31 then r.name else r.name[..31])
          && e.account.cred == if 0xFE01 + i !in store then None
                               else Some(Cred(if store[0xFE01 + i].tag == 1 then Pin else Certificate, store[0xFE01 + i].data))
  {
    if 0xFE00 in store && IndexReadable(l, store) {
      var rs := IndexRecords(l, store);
      forall i | 0 <= i < 5
        ensures Restore(store, i, rs[i]).Some? <==> SlotLoads(store, i, rs[i])
      {
      }
    }
  }

  // ------------------------------------------------- agreement, object by object

  predicate Restorable(db: Db) {
    forall i | 0 <= i < MAX_USERS && db[i].Used? ::
      && |db[i].account.name| <= MAX_NAME_LEN
      && db[i].account.perms.keyIdCount <= MAX_KEY_IDS
      && CredUsable(db[i].account.cred)
  }

  predicate CredMatches(e: Entry, store: Store, id: nat)
    requires ValidId(id)
  {
    e.Used? ==> CredUnder(store, id) == e.account.cred
  }

  ghost predicate CredsMatch(db: Db, store: Store) {
    forall i | 0 <= i < MAX_USERS :: CredMatches(db[i], store, i + 1)
  }

  predicate RecordFits(r: Record, i: nat, e: Entry) {
    match e
    case Free => r.userId == NO_USER && StoredName(r.name) == ""
    case Used(a) => r.userId == i + 1 && StoredName(r.name) == a.name && r.perms == a.perms
  }

  ghost predicate IndexHolds(l: Layout, db: Db, store: Store)
    requires SoundLayout(l)
  {
    if INDEX_ID !in store then Inactive(db) == EMPTY_DB
    else
      && IndexReadable(l, store)
      && forall i | 0 <= i < MAX_USERS :: RecordFits(IndexRecords(l, store)[i], i, db[i])
  }

  lemma RestoreFits(store: Store, i: nat, r: Record, e: Entry)
    requires i < MAX_USERS
    ensures Restore(store, i, r) == Some(if e.Used? then Used(e.account.(active := false)) else e)
       <==> && RecordFits(r, i, e)
            && CredMatches(e, store, i + 1)
            && (e.Used? ==> e.account.perms.keyIdCount <= MAX_KEY_IDS && CredUsable(e.account.cred))
  {
  }

  ghost predicate SlotAgrees(l: Layout, db: Db, store: Store, i: nat)
    requires SoundLayout(l)
    requires i < MAX_USERS && IndexReadable(l, store)
  {
    && RecordFits(IndexRecords(l, store)[i], i, db[i])
    && CredMatches(db[i], store, i + 1)
    && (db[i].Used? ==> db[i].account.perms.keyIdCount <= MAX_KEY_IDS && CredUsable(db[i].account.cred))
  }

  /** Agreement splits into the index object, the credential objects, and storable values. */
  lemma AgreeSplits(l: Layout, db: Db, store: Store)
    requires SoundLayout(l)
    ensures Agree(l, db, store) <==> IndexHolds(l, db, store) && CredsMatch(db, store) && Restorable(db)
  {
    if INDEX_ID !in store {
      if Inactive(db) == EMPTY_DB {
        forall i | 0 <= i < MAX_USERS
          ensures db[i].Free?
        {
          assert Inactive(db)[i] == EMPTY_DB[i];
        }
      }
    } else if IndexReadable(l, store) {
      var rs := IndexRecords(l, store);
      forall i | 0 <= i < MAX_USERS
        ensures Restore(store, i, rs[i]) == Some(Inactive(db)[i]) <==> SlotAgrees(l, db, store, i)
      {
        RestoreFits(store, i, rs[i], db[i]);
      }
      if Agree(l, db, store) {
        forall i | 0 <= i < MAX_USERS
          ensures SlotAgrees(l, db, store, i)
        {
          assert Reload(l, store).value[i] == Restore(store, i, rs[i]).value;
        }
        assert forall i | 0 <= i < MAX_USERS :: SlotAgrees(l, db, store, i);
      }
      if IndexHolds(l, db, store) && CredsMatch(db, store) && Restorable(db) {
        forall i | 0 <= i < MAX_USERS
          ensures Restore(store, i, rs[i]) == Some(Inactive(db)[i])
        {
          assert CredMatches(db[i], store, i + 1);
          assert SlotAgrees(l, db, store, i);
        }
        assert Reload(l, store).value == Inactive(db);
      }
    }
  }

  // ------------------------------------------------------------ writes and calls

  datatype Write = PutIndex(db: Db) | PutCred(id: nat, cred: Cred) | DropCred(id: nat)

  predicate ValidWrite(w: Write) {
    w.PutIndex? || ValidId(w.id)
  }

  function Apply(l: Layout, store: Store, w: Write): Store
    requires ValidWrite(w)
  {
    match w
    case PutIndex(db) => store[INDEX_ID := IndexObject(l, db)]
    case PutCred(id, cred) => store[CredId(id) := CredObject(cred)]
    case DropCred(id) => store - {CredId(id)}
  }

  /** What is kept of a slot: its user as stored, without the session; an empty slot is all zero. */
  lemma RecordIs(db: Db, i: nat)
    requires i < 5
    ensures var r := Records(db)[i];
      && !r.active
      && (db[i].Used? ==> r.userId == i + 1 && r.name == db[i].account.name && r.perms == db[i].account.perms)
      && (db[i].Free? ==> r.userId == 0 && r.name == [] && r.perms == NO_PERMS)
  {
  }

  /** Where each write goes: the index under one id, a credential under its user's, with its method as a number. */
  lemma WritesGoTo(l: Layout, store: Store, w: Write)
    requires ValidWrite(w)
    ensures var store' := Apply(l, store, w);
      && (w.PutIndex? ==> store'.Keys == store.Keys + {0xFE00} && store'[0xFE00].data == [0x42, 0x41, 0x48, 0x57] + l.encode(Records(w.db)))
      && (w.PutCred? ==>
            && store'.Keys == store.Keys + {0xFE00 + w.id} && store'[0xFE00 + w.id].data == w.cred.bytes
            && store'[0xFE00 + w.id].tag == match w.cred.how case NoMethod => 0 case Pin => 1 case Certificate => 2)
      && (w.DropCred? ==> store'.Keys == store.Keys - {0xFE00 + w.id})
      && forall k | k in store && k != (if w.PutIndex? then 0xFE00 else 0xFE00 + w.id) :: k in store' && store'[k] == store[k]
  {
  }

  /** One write, and what to write if it fails. */
  datatype Step = Step(write: Write, undo: seq<Write>)

  predicate ValidStep(step: Step) {
    ValidWrite(step.write) && forall u | u in step.undo :: ValidWrite(u)
  }

  predicate ValidSteps(steps: seq<Step>) {
    forall k | 0 <= k < |steps| :: ValidStep(steps[k])
  }

  datatype Outcome = Outcome(rc: Rc, store: Store, faults: seq<Rc>, visited: seq<Store>)

  /** The next storage result; a schedule that has run out means success from here on. */
  function Next(faults: seq<Rc>): Rc {
    if faults == [] then Ok else faults[0]
  }

  function Rest(faults: seq<Rc>): seq<Rc> {
    if faults == [] then [] else faults[1..]
  }

  /** Best-effort writes: failures are ignored. */
  function Undo(l: Layout, store: Store, writes: seq<Write>, faults: seq<Rc>, rc: Rc): Outcome
    requires forall w | w in writes :: ValidWrite(w)
    decreases |writes|
  {
    if writes == [] then Outcome(rc, store, faults, [])
    else if Next(faults) == Ok then
      var store' := Apply(l, store, writes[0]);
      var rest := Undo(l, store', writes[1..], Rest(faults), rc);
      rest.(visited := [store'] + rest.visited)
    else Undo(l, store, writes[1..], Rest(faults), rc)
  }

  /** Run the writes in order; the first failure is undone and returned. */
  function Commit(l: Layout, store: Store, steps: seq<Step>, faults: seq<Rc>): Outcome
    requires ValidSteps(steps)
    decreases |steps|
  {
    if steps == [] then Outcome(Ok, store, faults, [])
    else if Next(faults) == Ok then
      var store' := Apply(l, store, steps[0].write);
      var rest := Commit(l, store', steps[1..], Rest(faults));
      rest.(visited := [store'] + rest.visited)
    else Undo(l, store, steps[0].undo, Rest(faults), Next(faults))
  }

  datatype Call =
    | Add(name: CString, perms: Perms, how: Method, data: seq<byte>)
    | Delete(caller: nat, id: nat)
    | SetPermissions(caller: nat, id: nat, perms: Perms)
    | SetCredentials(caller: nat, id: nat, how: Method, current: seq<byte>, data: seq<byte>)
    | SignIn(how: Method, name: CString, data: seq<byte>)
    | SignOut(caller: nat, id: nat)

  function ChangeOf(cfg: Config, db: Db, call: Call): Change {
    match call
    case Add(name, perms, how, data) => AddChange(cfg, db, name, perms, how, data)
    case Delete(caller, id) => DeleteChange(db, caller, id)
    case SetPermissions(caller, id, perms) => SetPermissionsChange(db, caller, id, perms)
    case SetCredentials(caller, id, how, current, data) => SetCredentialsChange(cfg, db, caller, id, how, current, data)
    case SignIn(how, name, data) => (
      match LoginChange(cfg, db, how, name, data)
      case LoginFails(rc) => Refused(rc)
      case NotLoggedIn => Accepted(db, NO_USER)
      case LoggedIn(id, _, db') => Accepted(db', id))
    case SignOut(caller, id) => LogoutChange(db, caller, id)
  }

  function CredAt(db: Db, id: nat): Option<Cred>
    requires ValidId(id)
  {
    if db[id - 1].Used? then db[id - 1].account.cred else None
  }

  /** The credential blob goes first: it is reachable only through the index. */
  function AddSteps(db': Db, id: nat): (steps: seq<Step>)
    requires ValidId(id)
    ensures ValidSteps(steps)
  {
    match CredAt(db', id)
    case Some(c) => [Step(PutCred(id, c), []), Step(PutIndex(db'), [DropCred(id)])]
    case None => [Step(PutIndex(db'), [])]
  }

  /** The index entry goes first; a blob that cannot be destroyed brings the entry back. */
  function DeleteSteps(db: Db, db': Db, id: nat): (steps: seq<Step>)
    requires ValidId(id)
    ensures ValidSteps(steps)
  {
    match CredAt(db, id)
    case Some(_) => [Step(PutIndex(db'), []), Step(DropCred(id), [PutIndex(db)])]
    case None => [Step(PutIndex(db'), [])]
  }

  function SetCredentialsSteps(db: Db, db': Db, id: nat): (steps: seq<Step>)
    requires ValidId(id)
    ensures ValidSteps(steps)
  {
    match CredAt(db', id)
    case Some(c) => [Step(PutCred(id, c), [])]
    case None => if CredAt(db, id).Some? then [Step(DropCred(id), [])] else []
  }

  function StepsOf(db: Db, call: Call, db': Db, id: nat): (steps: seq<Step>)
    ensures ValidSteps(steps)
  {
    match call
    case Add(_, _, _, _) => if ValidId(id) then AddSteps(db', id) else []
    case Delete(_, _) => if ValidId(id) then DeleteSteps(db, db', id) else []
    case SetPermissions(_, _, _) => [Step(PutIndex(db'), [])]
    case SetCredentials(_, _, _, _, _) => if ValidId(id) then SetCredentialsSteps(db, db', id) else []
    case SignIn(_, _, _) => []
    case SignOut(_, _) => []
  }
}
