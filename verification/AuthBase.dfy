/**
 The base authentication backend (src/wh_auth_base.c): a table of five slots in RAM,
 an optional NVM holding the index and one credential object per user, and a RAM table
 of credentials used when there is no NVM.
 */
module AuthBase {
  import opened Codes
  import opened Permissions
  import opened AuthDb
  import opened AuthStore
  import opened AuthHistory

  /** An object store whose every write takes full effect or none; it logs the states it passes through. */
  class Nvm {
    var objects: Store
    var faults: seq<Rc>
    var readFaults: seq<Rc>
    var visited: seq<Store>

    constructor (objects: Store, faults: seq<Rc>, readFaults: seq<Rc>)
      requires NotFound !in readFaults
      ensures this.objects == objects && this.faults == faults && this.readFaults == readFaults
      ensures visited == []
    {
      this.objects, this.faults, this.readFaults, this.visited := objects, faults, readFaults, [];
    }

    ghost predicate Honest()
      reads this
    {
      NotFound !in readFaults
    }

    /** wh_Nvm_AddObjectWithReclaim: the latest object under an id wins. */
    method AddObject(id: nat, item: Object) returns (rc: Rc)
      modifies this`objects, this`faults, this`visited
      ensures rc == Next(old(faults)) && faults == Rest(old(faults))
      ensures objects == if rc == Ok then old(objects)[id := item] else old(objects)
      ensures visited == old(visited) + if rc == Ok then [objects] else []
    {
      rc, faults := Next(faults), Rest(faults);
      if rc == Ok {
        objects := objects[id := item];
        visited := visited + [objects];
      }
    }

    method DestroyObject(id: nat) returns (rc: Rc)
      modifies this`objects, this`faults, this`visited
      ensures rc == Next(old(faults)) && faults == Rest(old(faults))
      ensures objects == if rc == Ok then old(objects) - {id} else old(objects)
      ensures visited == old(visited) + if rc == Ok then [objects] else []
    {
      rc, faults := Next(faults), Rest(faults);
      if rc == Ok {
        objects := objects - {id};
        visited := visited + [objects];
      }
    }

    method GetMetadata(id: nat) returns (rc: Rc, tag: byte, len: nat)
      requires Honest()
      modifies this`readFaults
      ensures Honest() && readFaults == Rest(old(readFaults))
      ensures rc == if Next(old(readFaults)) != Ok then Next(old(readFaults)) else if id in objects then Ok else NotFound
      ensures rc == Ok ==> tag == objects[id].tag && len == |objects[id].data|
    {
      rc, tag, len := Next(readFaults), 0, 0;
      readFaults := Rest(readFaults);
      if rc == Ok {
        if id in objects {
          tag, len := objects[id].tag, |objects[id].data|;
        } else {
          rc := NotFound;
        }
      }
    }

    method Read(id: nat) returns (rc: Rc, data: seq<byte>)
      requires Honest() && id in objects
      modifies this`readFaults
      ensures Honest() && readFaults == Rest(old(readFaults))
      ensures rc == Next(old(readFaults)) && rc != NotFound
      ensures rc == Ok ==> data == objects[id].data
    {
      rc, data := Next(readFaults), [];
      readFaults := Rest(readFaults);
      if rc == Ok {
        data := objects[id].data;
      }
    }
  }

  /** A RAM slot. How and length of the credential are a cache of the credential object. */
  datatype Slot = Slot(user: Record, how: Method, credLen: nat)

  const EMPTY_SLOT := Slot(Record(NO_USER, "", NO_PERMS, false), NoMethod, 0)

  /** Where the credential bytes are. */
  datatype Blobs = InNvm(store: Store) | InRam(slots: seq<seq<byte>>)

  function StoredCred(b: Blobs, i: nat): Option<Cred>
    requires i < MAX_USERS
  {
    match b
    case InNvm(store) => CredUnder(store, i + 1)
    case InRam(slots) => if i < |slots| then Some(Cred(NoMethod, slots[i])) else None
  }

  function EntryOf(s: Slot, stored: Option<Cred>): Entry {
    if s.user.userId == NO_USER then Free
    else
      var bytes := if stored.Some? && s.credLen <= |stored.value.bytes| then stored.value.bytes[..s.credLen] else [];
      Used(Account(s.user.name, s.user.perms, s.user.active, if s.credLen == 0 then None else Some(Cred(s.how, bytes))))
  }

  function DbOf(slots: seq<Slot>, b: Blobs): (db: Db)
    requires |slots| == MAX_USERS
    ensures forall i | 0 <= i < MAX_USERS :: db[i] == EntryOf(slots[i], StoredCred(b, i))
  {
    seq(MAX_USERS, i requires 0 <= i < MAX_USERS => EntryOf(slots[i], StoredCred(b, i)))
  }

  predicate SlotNumbered(s: Slot, i: nat) {
    if s.user.userId == NO_USER then s == EMPTY_SLOT else s.user.userId == i + 1
  }

  predicate SlotOk(s: Slot, b: Blobs, i: nat)
    requires i < MAX_USERS
  {
    && SlotNumbered(s, i)
    && |s.user.name| <= MAX_NAME_LEN
    && s.user.perms.keyIdCount <= MAX_KEY_IDS
    && s.credLen <= MAX_CRED_LEN
    && (s.credLen == 0 <==> s.how == NoMethod)
    && (s.credLen > 0 ==>
          && StoredCred(b, i).Some?
          && s.credLen <= |StoredCred(b, i).value.bytes|
          && (b.InNvm? ==> StoredCred(b, i).value.how == s.how && |StoredCred(b, i).value.bytes| == s.credLen))
  }

  predicate AllOk(slots: seq<Slot>, b: Blobs) {
    && |slots| == MAX_USERS
    && (forall i | 0 <= i < MAX_USERS :: SlotOk(slots[i], b, i))
    && (b.InRam? ==> |b.slots| == MAX_USERS && forall i | 0 <= i < MAX_USERS :: |b.slots[i]| == MAX_CRED_LEN)
  }

  ghost predicate SameCredsExcept(b: Blobs, b': Blobs, i: nat) {
    && b.InNvm? == b'.InNvm?
    && forall k | 0 <= k < MAX_USERS && k != i :: StoredCred(b', k) == StoredCred(b, k)
  }

  ghost predicate SameCreds(b: Blobs, b': Blobs) {
    && b.InNvm? == b'.InNvm?
    && (forall k | 0 <= k < MAX_USERS :: StoredCred(b', k) == StoredCred(b, k))
    && (b.InRam? ==> b' == b)
  }

  /** The credential of slot i is these bytes. */
  predicate Holds(b: Blobs, i: nat, how: Method, data: seq<byte>)
    requires i < MAX_USERS
  {
    && StoredCred(b, i).Some?
    && |data| <= |StoredCred(b, i).value.bytes|
    && StoredCred(b, i).value.bytes[..|data|] == data
    && (b.InNvm? ==> StoredCred(b, i).value == Cred(how, data))
  }

  /** Changing one slot and its credential changes one entry of the database. */
  lemma OneEntryChanges(slots: seq<Slot>, b: Blobs, b': Blobs, i: nat, s: Slot)
    requires |slots| == MAX_USERS && i < MAX_USERS
    requires SameCredsExcept(b, b', i)
    ensures DbOf(slots[i := s], b') == DbOf(slots, b)[i := EntryOf(s, StoredCred(b', i))]
  {
  }

  lemma OneSlotChanges(slots: seq<Slot>, b: Blobs, b': Blobs, i: nat, s: Slot)
    requires AllOk(slots, b) && i < MAX_USERS
    requires SameCredsExcept(b, b', i)
    requires SlotOk(s, b', i)
    requires b'.InRam? ==> |b'.slots| == MAX_USERS && forall k | 0 <= k < MAX_USERS :: |b'.slots[k]| == MAX_CRED_LEN
    ensures AllOk(slots[i := s], b')
  {
    var slots' := slots[i := s];
    forall k | 0 <= k < MAX_USERS
      ensures SlotOk(slots'[k], b', k)
    {
      assert SlotOk(slots[k], b, k);
    }
  }

  lemma SlotInDb(slots: seq<Slot>, b: Blobs, i: nat)
    requires AllOk(slots, b) && i < MAX_USERS
    ensures NameAt(DbOf(slots, b), i) == slots[i].user.name
    ensures PermsAt(DbOf(slots, b), i + 1) == slots[i].user.perms
    ensures DbOf(slots, b)[i].Free? <==> slots[i].user.userId == NO_USER
    ensures DbOf(slots, b)[i].Free? ==> slots[i] == EMPTY_SLOT
    ensures slots[i].user.userId != NO_USER ==> slots[i].user.userId == i + 1
    ensures |slots[i].user.name| <= MAX_NAME_LEN && slots[i].user.perms.keyIdCount <= MAX_KEY_IDS
    ensures slots[i].user.userId != NO_USER ==>
      && DbOf(slots, b)[i].account.name == slots[i].user.name
      && DbOf(slots, b)[i].account.perms == slots[i].user.perms
      && DbOf(slots, b)[i].account.active == slots[i].user.active
  {
    assert SlotOk(slots[i], b, i);
  }

  /** What the scan of the table for a name and a free slot has found. */
  predicate Scanned(slots: seq<Slot>, name: CString, id: nat, upTo: nat)
    requires upTo <= |slots|
  {
    && (forall k | 0 <= k < upTo :: slots[k].user.name != name)
    && (if id == NO_USER then forall k | 0 <= k < upTo :: slots[k].user.userId != NO_USER
        else && id <= upTo && slots[id - 1].user.userId == NO_USER
             && forall k | 0 <= k < id - 1 :: slots[k].user.userId != NO_USER)
  }

  lemma ScanResult(slots: seq<Slot>, b: Blobs, name: CString, id: nat)
    requires AllOk(slots, b) && Scanned(slots, name, id, MAX_USERS)
    ensures Find(DbOf(slots, b), name).None?
    ensures FirstFree(DbOf(slots, b)) == if id == NO_USER then None else Some(id - 1)
    ensures id != NO_USER ==> ValidId(id) && slots[id - 1] == EMPTY_SLOT
  {
    var db := DbOf(slots, b);
    forall k | 0 <= k < MAX_USERS
      ensures NameAt(db, k) == slots[k].user.name
      ensures db[k].Free? <==> slots[k].user.userId == NO_USER
      ensures db[k].Free? ==> slots[k] == EMPTY_SLOT
    {
      SlotInDb(slots, b, k);
    }
  }

  lemma DuplicateFound(slots: seq<Slot>, b: Blobs, name: CString, i: nat)
    requires AllOk(slots, b)
    requires i < MAX_USERS && slots[i].user.name == name
    ensures Find(DbOf(slots, b), name).Some?
  {
    SlotInDb(slots, b, i);
  }

  lemma FoundAt(slots: seq<Slot>, b: Blobs, name: CString, i: nat)
    requires AllOk(slots, b)
    requires i < MAX_USERS && slots[i].user.name == name && forall k | 0 <= k < i :: slots[k].user.name != name
    ensures Find(DbOf(slots, b), name) == Some(i)
  {
    var db := DbOf(slots, b);
    forall k | 0 <= k < MAX_USERS
      ensures NameAt(db, k) == slots[k].user.name
    {
      SlotInDb(slots, b, k);
    }
  }

  lemma NotFoundAnywhere(slots: seq<Slot>, b: Blobs, name: CString)
    requires AllOk(slots, b)
    requires forall k | 0 <= k < MAX_USERS :: slots[k].user.name != name
    ensures Find(DbOf(slots, b), name) == None
  {
    var db := DbOf(slots, b);
    forall k | 0 <= k < MAX_USERS
      ensures NameAt(db, k) == slots[k].user.name
    {
      SlotInDb(slots, b, k);
    }
  }

  /** How a credential write or removal shows in the blobs. */
  lemma NvmCredChange(store: Store, id: nat, item: Option<Object>)
    requires ValidId(id)
    ensures var store' := if item.Some? then store[CredId(id) := item.value] else store - {CredId(id)};
      && SameCredsExcept(InNvm(store), InNvm(store'), id - 1)
      && StoredCred(InNvm(store'), id - 1) == (if item.Some? then Some(Cred(MethodOf(item.value.tag), item.value.data)) else None)
  {
    var store' := if item.Some? then store[CredId(id) := item.value] else store - {CredId(id)};
    forall k | 0 <= k < MAX_USERS && k != id - 1
      ensures StoredCred(InNvm(store'), k) == StoredCred(InNvm(store), k)
    {
      CredIdsDiffer(id, k + 1);
    }
  }

  lemma RamCredChange(slots: seq<seq<byte>>, id: nat, bytes: seq<byte>)
    requires ValidId(id) && |slots| == MAX_USERS
    ensures SameCredsExcept(InRam(slots), InRam(slots[id - 1 := bytes]), id - 1)
    ensures StoredCred(InRam(slots[id - 1 := bytes]), id - 1) == Some(Cred(NoMethod, bytes))
  {
  }

  lemma IndexIsNoCred(store: Store, item: Object)
    ensures forall i | 0 <= i < MAX_USERS :: StoredCred(InNvm(store[INDEX_ID := item]), i) == StoredCred(InNvm(store), i)
  {
  }

  lemma CredIdsDiffer(id: nat, id': nat)
    requires ValidId(id) && ValidId(id')
    ensures CredId(id) == CredId(id') <==> id == id'
    ensures CredId(id) != INDEX_ID
  {
  }

  /** The account a filled slot stands for. */
  function AccountOf(slot: Slot, blob: seq<byte>): Account {
    Account(slot.user.name, slot.user.perms, slot.user.active, if blob == [] then None else Some(Cred(slot.how, blob)))
  }

  predicate RamShape(b: Blobs) {
    b.InRam? ==> |b.slots| == MAX_USERS && forall k | 0 <= k < MAX_USERS :: |b.slots[k]| == MAX_CRED_LEN
  }

  predicate FitsSlot(slot: Slot, id: nat, blob: seq<byte>) {
    && slot.user.userId == id
    && |slot.user.name| <= MAX_NAME_LEN && slot.user.perms.keyIdCount <= MAX_KEY_IDS
    && slot.credLen == |blob| <= MAX_CRED_LEN
    && (blob == [] <==> slot.how == NoMethod)
  }

  /** A slot filled in, its credential in place. */
  lemma SlotFilled(slots: seq<Slot>, b: Blobs, b': Blobs, id: nat, slot: Slot, blob: seq<byte>)
    requires AllOk(slots, b) && ValidId(id) && FitsSlot(slot, id, blob)
    requires SameCredsExcept(b, b', id - 1) && RamShape(b')
    requires blob != [] ==> Holds(b', id - 1, slot.how, blob)
    ensures AllOk(slots[id - 1 := slot], b')
    ensures DbOf(slots[id - 1 := slot], b') == DbOf(slots, b)[id - 1 := Used(AccountOf(slot, blob))]
  {
    OneSlotChanges(slots, b, b', id - 1, slot);
    OneEntryChanges(slots, b, b', id - 1, slot);
  }

  lemma RecordsIgnoreCreds(slots: seq<Slot>, b: Blobs, b': Blobs)
    requires |slots| == MAX_USERS
    ensures Records(DbOf(slots, b)) == Records(DbOf(slots, b'))
  {
  }

  /** The index records of a table just filled do not depend on the credential. */
  lemma FilledRecords(slots: seq<Slot>, b: Blobs, id: nat, slot: Slot, blob: seq<byte>)
    requires AllOk(slots, b) && ValidId(id) && FitsSlot(slot, id, blob)
    ensures var slots' := slots[id - 1 := slot]; forall i | 0 <= i < MAX_USERS :: SlotNumbered(slots'[i], i)
    ensures Records(DbOf(slots, b)[id - 1 := Used(AccountOf(slot, blob))]) == Records(DbOf(slots[id - 1 := slot], b))
  {
    var slots' := slots[id - 1 := slot];
    var db, db' := DbOf(slots, b)[id - 1 := Used(AccountOf(slot, blob))], DbOf(slots', b);
    forall i | 0 <= i < MAX_USERS
      ensures SlotNumbered(slots'[i], i)
      ensures Records(db)[i] == Records(db')[i]
    {
      assert SlotOk(slots[i], b, i);
    }
  }

  /** A credential under an empty slot does not show. */
  lemma EmptySlotHides(slots: seq<Slot>, b: Blobs, b': Blobs, id: nat)
    requires AllOk(slots, b) && ValidId(id) && slots[id - 1] == EMPTY_SLOT
    requires SameCredsExcept(b, b', id - 1) && RamShape(b')
    ensures AllOk(slots, b') && DbOf(slots, b') == DbOf(slots, b)
  {
    OneSlotChanges(slots, b, b', id - 1, EMPTY_SLOT);
    OneEntryChanges(slots, b, b', id - 1, EMPTY_SLOT);
    assert slots[id - 1 := EMPTY_SLOT] == slots;
    assert DbOf(slots, b)[id - 1 := Free] == DbOf(slots, b);
  }

  /** The ways the writes of an add can end. */
  lemma AddOutcomes(l: Layout, store: Store, db: Db, id: nat, faults: seq<Rc>)
    requires ValidId(id)
    ensures var o := Commit(l, store, AddSteps(db, id), faults);
      var rest := Rest(faults);
      match CredAt(db, id)
      case None =>
        o == (if Next(faults) == Ok
              then Outcome(Ok, Apply(l, store, PutIndex(db)), rest, [Apply(l, store, PutIndex(db))])
              else Outcome(Next(faults), store, rest, []))
      case Some(c) =>
        var first := Apply(l, store, PutCred(id, c));
        var dropped := Apply(l, first, DropCred(id));
        o == (if Next(faults) != Ok then Outcome(Next(faults), store, rest, [])
              else if Next(rest) == Ok
              then Outcome(Ok, Apply(l, first, PutIndex(db)), Rest(rest), [first, Apply(l, first, PutIndex(db))])
              else if Next(Rest(rest)) == Ok then Outcome(Next(rest), dropped, Rest(Rest(rest)), [first, dropped])
              else Outcome(Next(rest), first, Rest(Rest(rest)), [first]))
  {
    match CredAt(db, id) {
      case None => CommitOne(l, store, Step(PutIndex(db), []), faults);
      case Some(c) =>
        var first := Apply(l, store, PutCred(id, c));
        CommitTwo(l, store, Step(PutCred(id, c), []), Step(PutIndex(db), [DropCred(id)]), faults);
        UndoOne(l, first, DropCred(id), Rest(Rest(faults)), Next(Rest(faults)));
        assert [first] + [] == [first];
        assert [first] + [Apply(l, first, DropCred(id))] == [first, Apply(l, first, DropCred(id))];
    }
  }

  /** The slot an accepted add fills in. */
  function NewSlot(name: CString, perms: Perms, how: Method, id: uint16, blob: seq<byte>): Slot {
    Slot(Record(id, StoredName(name), Clamp(perms), false), if blob != [] then how else NoMethod, |blob|)
  }

  lemma AddAccepted(cfg: Config, db: Db, name: CString, perms: Perms, how: Method, data: seq<byte>, id: nat, blob: seq<byte>, slot: Slot)
    requires data != [] ==> MethodSupported(cfg, how) && ProcessNew(cfg, how, data) == Bytes(blob) && blob != []
    requires data == [] ==> blob == []
    requires Find(db, name).None? && ValidId(id) && FirstFree(db) == Some(id - 1)
    requires slot == NewSlot(name, perms, how, id, blob) && |blob| <= MAX_CRED_LEN
    ensures AddChange(cfg, db, name, perms, how, data) == Accepted(db[id - 1 := Used(AccountOf(slot, blob))], id)
    ensures FitsSlot(slot, id, blob)
  {
  }

  /** A slot updated in place, its blob as the slot says. */
  lemma SlotUpdated(slots: seq<Slot>, b: Blobs, b': Blobs, id: nat, slot: Slot, entry: Entry)
    requires AllOk(slots, b) && ValidId(id)
    requires SameCredsExcept(b, b', id - 1) && RamShape(b')
    requires SlotOk(slot, b', id - 1) && EntryOf(slot, StoredCred(b', id - 1)) == entry
    ensures AllOk(slots[id - 1 := slot], b')
    ensures DbOf(slots[id - 1 := slot], b') == DbOf(slots, b)[id - 1 := entry]
  {
    OneSlotChanges(slots, b, b', id - 1, slot);
    OneEntryChanges(slots, b, b', id - 1, slot);
  }

  /** Everything but the credential can change under a credential that stays. */
  lemma UserUpdated(slots: seq<Slot>, b: Blobs, id: nat, user: Record)
    requires AllOk(slots, b) && ValidId(id) && slots[id - 1].user.userId != NO_USER
    requires user.userId == id && |user.name| <= MAX_NAME_LEN && user.perms.keyIdCount <= MAX_KEY_IDS
    ensures var slots' := slots[id - 1 := slots[id - 1].(user := user)];
      && AllOk(slots', b)
      && DbOf(slots, b)[id - 1].Used?
      && DbOf(slots', b) == DbOf(slots, b)[id - 1 := Used(Account(user.name, user.perms, user.active, DbOf(slots, b)[id - 1].account.cred))]
  {
    assert SlotOk(slots[id - 1], b, id - 1);
    var slot := slots[id - 1].(user := user);
    SlotUpdated(slots, b, b, id, slot, EntryOf(slot, StoredCred(b, id - 1)));
  }

  lemma PermissionsSwapped(slots: seq<Slot>, b: Blobs, id: nat, perms: Perms)
    requires AllOk(slots, b) && ValidId(id) && slots[id - 1].user.userId == id
    requires perms.keyIdCount <= MAX_KEY_IDS
    ensures DbOf(slots, b)[id - 1].Used?
    ensures var slots' := slots[id - 1 := slots[id - 1].(user := slots[id - 1].user.(perms := perms))];
      && AllOk(slots', b)
      && DbOf(slots', b) == DbOf(slots, b)[id - 1 := Used(DbOf(slots, b)[id - 1].account.(perms := perms))]
  {
    SlotInDb(slots, b, id - 1);
    UserUpdated(slots, b, id, slots[id - 1].user.(perms := perms));
  }

  /** The credential of a user replaced, its new blob in place (none when empty). */
  lemma CredentialSwapped(slots: seq<Slot>, b: Blobs, b': Blobs, id: nat, how: Method, blob: seq<byte>)
    requires AllOk(slots, b) && ValidId(id) && slots[id - 1].user.userId == id
    requires SameCredsExcept(b, b', id - 1) && RamShape(b') && |blob| <= MAX_CRED_LEN
    requires if blob == [] then how == NoMethod else how != NoMethod && Holds(b', id - 1, how, blob)
    ensures DbOf(slots, b)[id - 1].Used?
    ensures var slots' := slots[id - 1 := slots[id - 1].(how := how, credLen := |blob|)];
      var cred := if blob == [] then None else Some(Cred(how, blob));
      && AllOk(slots', b')
      && DbOf(slots', b') == DbOf(slots, b)[id - 1 := Used(DbOf(slots, b)[id - 1].account.(cred := cred))]
  {
    SlotInDb(slots, b, id - 1);
    assert SlotOk(slots[id - 1], b, id - 1);
    var slot := slots[id - 1].(how := how, credLen := |blob|);
    SlotUpdated(slots, b, b', id, slot, EntryOf(slot, StoredCred(b', id - 1)));
  }

  lemma SetCredentialsAccepted(cfg: Config, db: Db, caller: nat, id: nat, how: Method,
                               current: seq<byte>, data: seq<byte>, blob: seq<byte>)
    requires ValidId(id) && ValidId(caller) && (caller == id || IsAdmin(PermsAt(db, caller)))
    requires MethodSupported(cfg, how) && db[id - 1].Used? && |data| <= MAX_CRED_LEN
    requires CheckCurrent(cfg, db[id - 1].account.cred, current) == Ok
    requires if data == [] then blob == [] else blob != [] && ProcessNew(cfg, how, data) == Bytes(blob)
    ensures SetCredentialsChange(cfg, db, caller, id, how, current, data)
         == Accepted(db[id - 1 := Used(db[id - 1].account.(cred := if blob == [] then None else Some(Cred(how, blob))))], id)
  {
  }

  lemma CredentialFacts(slots: seq<Slot>, b: Blobs, id: nat)
    requires AllOk(slots, b) && ValidId(id) && slots[id - 1].user.userId == id
    ensures DbOf(slots, b)[id - 1].Used?
    ensures var cred := DbOf(slots, b)[id - 1].account.cred;
      && (slots[id - 1].credLen > 0 <==> cred.Some?)
      && (cred.Some? ==> cred.value.how == slots[id - 1].how && |cred.value.bytes| == slots[id - 1].credLen)
  {
    assert SlotOk(slots[id - 1], b, id - 1);
  }

  /** The ways dropping the blob can end. */
  lemma DropOutcomes(l: Layout, store: Store, db: Db, id: nat, faults: seq<Rc>)
    requires ValidId(id)
    ensures var o := Commit(l, store, [Step(DropCred(id), [PutIndex(db)])], faults);
      var dropped := Apply(l, store, DropCred(id));
      var back := Apply(l, store, PutIndex(db));
      o == (if Next(faults) == Ok then Outcome(Ok, dropped, Rest(faults), [dropped])
            else if Next(Rest(faults)) == Ok then Outcome(Next(faults), back, Rest(Rest(faults)), [back])
            else Outcome(Next(faults), store, Rest(Rest(faults)), []))
  {
    UndoOne(l, store, PutIndex(db), Rest(faults), Next(faults));
    assert [Step(DropCred(id), [PutIndex(db)])][1..] == [];
  }

  /** The writes of a delete: the index, and then, when there is a blob, dropping it. */
  lemma DeleteInTwo(l: Layout, store: Store, db: Db, db': Db, id: nat, faults: seq<Rc>)
    requires ValidId(id)
    ensures var first := Apply(l, store, PutIndex(db'));
      var rest := Commit(l, first, [Step(DropCred(id), [PutIndex(db)])], Rest(faults));
      Commit(l, store, DeleteSteps(db, db', id), faults)
        == if Next(faults) != Ok then Outcome(Next(faults), store, Rest(faults), [])
           else if CredAt(db, id).None? then Outcome(Ok, first, Rest(faults), [first])
           else rest.(visited := [first] + rest.visited)
  {
    if CredAt(db, id).None? {
      CommitOne(l, store, Step(PutIndex(db'), []), faults);
    } else {
      assert DeleteSteps(db, db', id)[1..] == [Step(DropCred(id), [PutIndex(db)])];
    }
  }

  /** Emptying one slot. */
  lemma SlotEmptied(slots: seq<Slot>, b: Blobs, b': Blobs, id: nat)
    requires AllOk(slots, b) && ValidId(id)
    requires SameCredsExcept(b, b', id - 1) && RamShape(b')
    ensures AllOk(slots[id - 1 := EMPTY_SLOT], b')
    ensures DbOf(slots[id - 1 := EMPTY_SLOT], b') == DbOf(slots, b)[id - 1 := Free]
  {
    OneSlotChanges(slots, b, b', id - 1, EMPTY_SLOT);
    OneEntryChanges(slots, b, b', id - 1, EMPTY_SLOT);
  }

  lemma CredentialCached(slots: seq<Slot>, b: Blobs, id: nat)
    requires AllOk(slots, b) && ValidId(id)
    ensures CredAt(DbOf(slots, b), id).Some? <==> slots[id - 1].credLen > 0
  {
    assert SlotOk(slots[id - 1], b, id - 1);
  }

  lemma AllNumbered(slots: seq<Slot>, b: Blobs)
    requires AllOk(slots, b)
    ensures forall i | 0 <= i < MAX_USERS :: SlotNumbered(slots[i], i)
  {
    forall i | 0 <= i < MAX_USERS
      ensures SlotNumbered(slots[i], i)
    {
      assert SlotOk(slots[i], b, i);
    }
  }

  lemma PutBack(slots: seq<Slot>, i: nat, slot: Slot)
    requires i < |slots|
    ensures slots[i := slot][i := slots[i]] == slots
  {
  }

  /** Clearing a credential takes one write, or none when there is nothing to clear. */
  lemma ClearSteps(db: Db, id: nat)
    requires ValidId(id) && db[id - 1].Used?
    ensures var db' := db[id - 1 := Used(db[id - 1].account.(cred := None))];
      && SetCredentialsSteps(db, db', id) == (if db[id - 1].account.cred.Some? then [Step(DropCred(id), [])] else [])
      && (db[id - 1].account.cred.None? ==> db' == db)
  {
  }

  /** What a delete leaves: the table without the user, or the table as it was. */
  lemma DeleteSettles(slots: seq<Slot>, slots': seq<Slot>, b: Blobs, b': Blobs, id: nat, ok: bool)
    requires AllOk(slots, b) && ValidId(id)
    requires slots' == if ok then slots[id - 1 := EMPTY_SLOT] else slots
    requires SameCredsExcept(b, b', id - 1) && RamShape(b') && (ok || SameCreds(b, b'))
    ensures AllOk(slots', b')
    ensures DbOf(slots', b') == if ok then DbOf(slots, b)[id - 1 := Free] else DbOf(slots, b)
  {
    if ok {
      SlotEmptied(slots, b, b', id);
    } else {
      SameCredsSameDb(slots, b, b');
    }
  }

  lemma SlotEmptyable(slots: seq<Slot>, b: Blobs, id: nat)
    requires AllOk(slots, b) && ValidId(id)
    ensures var slots' := slots[id - 1 := EMPTY_SLOT];
      && AllOk(slots', b) && DbOf(slots', b) == DbOf(slots, b)[id - 1 := Free]
      && (forall i | 0 <= i < MAX_USERS :: SlotNumbered(slots'[i], i))
    ensures SlotNumbered(slots[id - 1], id - 1)
    ensures CredAt(DbOf(slots, b), id).Some? <==> slots[id - 1].credLen > 0
  {
    SlotEmptied(slots, b, b, id);
    AllNumbered(slots[id - 1 := EMPTY_SLOT], b);
    AllNumbered(slots, b);
    CredentialCached(slots, b, id);
  }

  lemma SameCredsSameDb(slots: seq<Slot>, b: Blobs, b': Blobs)
    requires AllOk(slots, b) && SameCreds(b, b')
    ensures AllOk(slots, b') && DbOf(slots, b') == DbOf(slots, b)
  {
    forall i | 0 <= i < MAX_USERS
      ensures SlotOk(slots[i], b', i)
    {
      assert SlotOk(slots[i], b, i);
    }
  }

  lemma LogsAppend(v: seq<Store>, a: Store, b: Store)
    ensures v + [a] + [b] == v + [a, b]
    ensures v + [a] + [] == v + [a]
    ensures v + [] + [a] == v + [a]
    ensures v + [] == v
  {
  }

  function PadCred(data: seq<byte>): (padded: seq<byte>)
    requires |data| <= MAX_CRED_LEN
    ensures |padded| == MAX_CRED_LEN && padded[..|data|] == data
  {
    data + Zeros(MAX_CRED_LEN - |data|)
  }

  function BlobsOf(nvmOn: bool, store: Store, ram: seq<seq<byte>>): Blobs {
    if nvmOn then InNvm(store) else InRam(ram)
  }

  class Backend {
    const cfg: Config
    const layout: Layout
    const users: array<Slot>
    const ramCred: array<seq<byte>>
    var nvm: Nvm?

    ghost predicate Shaped()
      reads this, nvm
    {
      && users.Length == MAX_USERS && ramCred.Length == MAX_USERS
      && users as object != ramCred
      && Sound(cfg) && SoundLayout(layout)
      && (nvm != null ==> nvm.Honest())
    }

    ghost function Blobs(): Blobs
      reads this, nvm, ramCred
    {
      BlobsOf(nvm != null, if nvm != null then nvm.objects else map[], ramCred[..])
    }

    ghost predicate Valid()
      reads this, nvm, users, ramCred
    {
      Shaped() && AllOk(users[..], Blobs())
    }

    /** The database these slots and credentials stand for. */
    ghost function Db(): Db
      requires users.Length == MAX_USERS
      reads this, nvm, users, ramCred
    {
      DbOf(users[..], Blobs())
    }

    constructor (cfg: Config, layout: Layout)
      requires Sound(cfg) && SoundLayout(layout)
      ensures Valid() && nvm == null && Db() == EMPTY_DB
      ensures this.cfg == cfg && this.layout == layout && fresh(users) && fresh(ramCred)
    {
      this.cfg, this.layout, this.nvm := cfg, layout, null;
      users := new Slot[MAX_USERS](_ => EMPTY_SLOT);
      ramCred := new seq<byte>[MAX_USERS](_ => Zeros(MAX_CRED_LEN));
      new;
      NothingLoaded(users[..], Blobs());
    }

    /** wh_Auth_BaseInit: clear everything, then rebuild from NVM if there is one. */
    method Init(store: Nvm?) returns (rc: Rc)
      requires Shaped()
      requires store != null ==> store.Honest()
      modifies this`nvm, users, ramCred, if store == null then {} else {store}
      ensures Shaped() && nvm == store
      ensures store == null || CleanIndex(layout, store.objects) ==> Valid()
      ensures store == null ==> rc == Ok && Db() == EMPTY_DB
      ensures store != null ==>
        && store.objects == old(store.objects) && store.faults == old(store.faults) && store.visited == old(store.visited)
        && Db() == (if rc == Ok && Reload(layout, store.objects).Some? then Reload(layout, store.objects).value else EMPTY_DB)
        && (Reload(layout, store.objects).None? ==> rc != Ok)
        && (old(store.readFaults) == [] ==> store.readFaults == [] && (rc == Ok <==> Reload(layout, store.objects).Some?))
    {
      forall k | 0 <= k < users.Length {
        users[k] := EMPTY_SLOT;
      }
      forall k | 0 <= k < ramCred.Length {
        ramCred[k] := Zeros(MAX_CRED_LEN);
      }
      nvm := store;
      NothingLoaded(users[..], Blobs());
      rc := Ok;
      if nvm != null {
        rc := LoadFromNvm();
      }
    }

    /** wh_Auth_BasePersistIndex */
    method PersistIndex(ghost db: Db) returns (rc: Rc)
      requires Shaped() && Records(db) == Records(Db())
      requires forall i | 0 <= i < MAX_USERS :: SlotNumbered(users[i], i)
      modifies nvm
      ensures Shaped() && Db() == old(Db())
      ensures nvm == null ==> rc == Ok
      ensures nvm != null ==>
        && rc == Next(old(nvm.faults)) && nvm.faults == Rest(old(nvm.faults))
        && nvm.objects == (if rc == Ok then Apply(layout, old(nvm.objects), PutIndex(db)) else old(nvm.objects))
        && nvm.visited == old(nvm.visited) + (if rc == Ok then [nvm.objects] else [])
        && nvm.readFaults == old(nvm.readFaults)
      ensures SameCreds(old(Blobs()), Blobs())
    {
      if nvm == null {
        return Ok;
      }
      var records: seq<Record> := [];
      for i := 0 to MAX_USERS
        invariant |records| == i
        invariant forall k | 0 <= k < i :: records[k] == RecordOf(k, Db()[k])
      {
        records := records + [users[i].user.(active := false)];
      }
      assert records == Records(Db());
      ghost var before := nvm.objects;
      rc := nvm.AddObject(INDEX_ID, Object(0, MAGIC + layout.encode(records)));
      IndexIsNoCred(before, Object(0, MAGIC + layout.encode(records)));
      assert Db() == old(Db());
    }

    /** wh_Auth_BasePersistCred */
    method PersistCred(id: nat, how: Method, data: seq<byte>) returns (rc: Rc)
      requires Shaped() && ValidId(id) && |data| <= MAX_CRED_LEN
      modifies nvm, ramCred
      ensures Shaped() && users[..] == old(users[..])
      ensures nvm == null ==> rc == Ok && ramCred[..] == old(ramCred[..])[id - 1 := PadCred(data)]
      ensures nvm != null ==>
        && rc == Next(old(nvm.faults)) && nvm.faults == Rest(old(nvm.faults))
        && nvm.objects == (if rc == Ok then old(nvm.objects)[CredId(id) := Object(Tag(how), data)] else old(nvm.objects))
        && nvm.visited == old(nvm.visited) + (if rc == Ok then [nvm.objects] else [])
        && nvm.readFaults == old(nvm.readFaults)
        && ramCred[..] == old(ramCred[..])
      ensures SameCredsExcept(old(Blobs()), Blobs(), id - 1)
      ensures rc != Ok ==> Blobs() == old(Blobs())
      ensures rc == Ok && data != [] && how != NoMethod ==> Holds(Blobs(), id - 1, how, data)
    {
      if nvm == null {
        RamCredChange(ramCred[..], id, PadCred(data));
        ramCred[id - 1] := PadCred(data);
        return Ok;
      }
      NvmCredChange(nvm.objects, id, Some(Object(Tag(how), data)));
      rc := nvm.AddObject(CredId(id), Object(Tag(how), data));
    }

    /** wh_Auth_BaseDestroyCred */
    method DestroyCred(id: nat) returns (rc: Rc)
      requires Shaped() && ValidId(id)
      modifies nvm, ramCred
      ensures Shaped() && users[..] == old(users[..])
      ensures nvm == null ==> rc == Ok && ramCred[..] == old(ramCred[..])[id - 1 := PadCred([])]
      ensures nvm != null ==>
        && rc == Next(old(nvm.faults)) && nvm.faults == Rest(old(nvm.faults))
        && nvm.objects == (if rc == Ok then old(nvm.objects) - {CredId(id)} else old(nvm.objects))
        && nvm.visited == old(nvm.visited) + (if rc == Ok then [nvm.objects] else [])
        && nvm.readFaults == old(nvm.readFaults)
        && ramCred[..] == old(ramCred[..])
      ensures SameCredsExcept(old(Blobs()), Blobs(), id - 1)
      ensures rc != Ok ==> Blobs() == old(Blobs())
    {
      if nvm == null {
        RamCredChange(ramCred[..], id, PadCred([]));
        ramCred[id - 1] := PadCred([]);
        return Ok;
      }
      NvmCredChange(nvm.objects, id, None);
      rc := nvm.DestroyObject(CredId(id));
    }

    /** What reading a credential runs into: the first error of its two reads, or Ok. */
    ghost function ReadFault(): Rc
      reads this, nvm
    {
      if nvm == null then Ok
      else if Next(nvm.readFaults) != Ok then Next(nvm.readFaults)
      else Next(Rest(nvm.readFaults))
    }

    /** wh_Auth_BaseLoadCred */
    method LoadCred(id: nat) returns (rc: Rc, data: seq<byte>)
      requires Valid() && ValidId(id)
      modifies nvm
      ensures Valid() && Db() == old(Db()) && Blobs() == old(Blobs()) && NvmUntouched()
      ensures nvm == null ==> rc == if users[id - 1].credLen == 0 then NotFound else Ok
      ensures nvm != null ==>
        var blob := CredUnder(nvm.objects, id);
        && rc == (if Next(old(nvm.readFaults)) != Ok then Next(old(nvm.readFaults))
                  else if blob.None? then NotFound
                  else if 0 < |blob.value.bytes| <= MAX_CRED_LEN then old(ReadFault())
                  else Aborted)
        && (rc == Ok ==> data == blob.value.bytes)
      ensures users[id - 1].credLen > 0 ==>
        && rc == old(ReadFault()) && Db()[id - 1].Used? && Db()[id - 1].account.cred.Some?
        && (rc == Ok ==> data == Db()[id - 1].account.cred.value.bytes)
    {
      ghost var slots, b := users[..], Blobs();
      assert SlotOk(slots[id - 1], b, id - 1);
      data := [];
      if nvm == null {
        if users[id - 1].credLen == 0 {
          return NotFound, [];
        }
        return Ok, ramCred[id - 1][..users[id - 1].credLen];
      }
      var tag, len;
      rc, tag, len := nvm.GetMetadata(CredId(id));
      if rc == Ok {
        if 0 < len <= MAX_CRED_LEN {
          rc, data := nvm.Read(CredId(id));
        } else {
          rc := Aborted;
        }
      }
    }

    /** The loop at the head of wh_Auth_BaseUserAdd: a slot of this name, or else the first free one. */
    method ScanSlots(name: CString) returns (twin: Option<nat>, id: nat)
      requires users.Length == MAX_USERS
      ensures twin.Some? ==> twin.value < MAX_USERS && users[twin.value].user.name == name
      ensures twin.None? ==> Scanned(users[..], name, id, MAX_USERS)
    {
      twin, id := None, NO_USER;
      for i := 0 to MAX_USERS
        invariant Scanned(users[..], name, id, i)
      {
        if id == NO_USER && users[i].user.userId == NO_USER {
          id := i + 1;
        }
        if users[i].user.name == name {
          return Some(i), NO_USER;
        }
      }
    }

    /** Duplicate name, full table, or the slot to use. */
    method AllocateSlot(name: CString, ghost db: Db) returns (rc: Rc, id: nat)
      requires Valid() && db == Db()
      ensures rc == if Find(db, name).Some? then BadArgs else if FirstFree(db).None? then BufferSize else Ok
      ensures rc == Ok ==> FirstFree(db) == Some(id - 1) && ValidId(id) && users[id - 1] == EMPTY_SLOT
    {
      ghost var slots, b := users[..], Blobs();
      var twin;
      twin, id := ScanSlots(name);
      if twin.Some? {
        DuplicateFound(slots, b, name, twin.value);
        return BadArgs, NO_USER;
      }
      ScanResult(slots, b, name, id);
      rc := if id == NO_USER then BufferSize else Ok;
    }

    /** wh_Auth_BaseHashPin on the way to a stored credential, or a plain copy. */
    method BuildCred(how: Method, data: seq<byte>) returns (rc: Rc, blob: seq<byte>)
      requires Sound(cfg)
      ensures ProcessNew(cfg, how, data) == if rc == Ok then Bytes(blob) else Fails(rc)
      ensures rc == Ok ==> |blob| <= MAX_CRED_LEN && (data != [] ==> blob != [])
    {
      blob := [];
      if how == Pin && cfg.crypto {
        var hash := cfg.sha(data);
        if hash.None? {
          return Aborted, [];
        }
        return Ok, hash.value;
      }
      if |data| > MAX_CRED_LEN {
        return BufferSize, [];
      }
      return Ok, data;
    }

    /** What the writes of a call must have done to the NVM, if there is one. */
    twostate predicate Committed(steps: seq<Step>, rc: Rc)
      requires ValidSteps(steps)
      reads this, nvm
    {
      && nvm == old(nvm)
      && (nvm == null ==> rc == Ok)
      && (nvm != null ==>
            var o := Commit(layout, old(nvm.objects), steps, old(nvm.faults));
            && rc == o.rc && nvm.objects == o.store && nvm.faults == o.faults
            && nvm.visited == old(nvm.visited) + o.visited
            && (old(nvm.readFaults) == [] ==> nvm.readFaults == []))
    }

    /** A call whose only write is the index. */
    method CommitIndex(ghost db: Db) returns (rc: Rc)
      requires Valid() && Records(db) == Records(Db())
      modifies nvm
      ensures Valid() && Db() == old(Db())
      ensures SameCreds(old(Blobs()), Blobs())
      ensures Committed([Step(PutIndex(db), [])], rc)
    {
      if nvm != null {
        CommitOne(layout, nvm.objects, Step(PutIndex(db), []), nvm.faults);
      }
      AllNumbered(users[..], Blobs());
      ghost var b := Blobs();
      rc := PersistIndex(db);
      SameCredsSameDb(users[..], b, Blobs());
    }

    /** The blob, then the index that makes it reachable; drop the blob if the index fails. */
    method WriteAdd(id: nat, how: Method, blob: seq<byte>, ghost db: Db) returns (rc: Rc)
      requires Shaped() && RamShape(Blobs()) && ValidId(id) && 0 < |blob| <= MAX_CRED_LEN && how != NoMethod
      requires forall i | 0 <= i < MAX_USERS :: SlotNumbered(users[i], i)
      requires Records(db) == Records(Db())
      requires CredAt(db, id) == Some(Cred(how, blob))
      modifies ramCred, nvm
      ensures Shaped() && RamShape(Blobs())
      ensures SameCredsExcept(old(Blobs()), Blobs(), id - 1)
      ensures rc == Ok ==> Holds(Blobs(), id - 1, how, blob)
      ensures Committed(AddSteps(db, id), rc)
    {
      ghost var o := if nvm == null then Outcome(Ok, map[], [], []) else Commit(layout, nvm.objects, AddSteps(db, id), nvm.faults);
      if nvm != null {
        AddOutcomes(layout, nvm.objects, db, id, nvm.faults);
      }
      rc := PersistCred(id, how, blob);
      if rc != Ok {
        return;
      }
      assert nvm != null ==> nvm.objects == Apply(layout, old(nvm.objects), PutCred(id, Cred(how, blob)));
      RecordsIgnoreCreds(users[..], old(Blobs()), Blobs());
      rc := PersistIndex(db);
      if rc != Ok {
        var _ := DestroyCred(id);
      }
      assert nvm != null ==> rc == o.rc && nvm.objects == o.store && nvm.faults == o.faults;
      if nvm != null {
        ghost var v := old(nvm.visited);
        LogsAppend(v, Apply(layout, old(nvm.objects), PutCred(id, Cred(how, blob))), nvm.objects);
        assert nvm.visited == v + o.visited;
      }
    }

    /** Fill the slot and write it; empty the slot again on failure. */
    method CommitAdd(id: nat, slot: Slot, blob: seq<byte>) returns (rc: Rc)
      requires Valid() && ValidId(id) && users[id - 1] == EMPTY_SLOT && FitsSlot(slot, id, blob) && blob != []
      modifies users, ramCred, nvm
      ensures Valid()
      ensures var db' := old(Db())[id - 1 := Used(AccountOf(slot, blob))];
        && Db() == (if rc == Ok then db' else old(Db()))
        && Committed(AddSteps(db', id), rc)
    {
      ghost var slots, b0 := users[..], Blobs();
      ghost var db' := Db()[id - 1 := Used(AccountOf(slot, blob))];
      FilledRecords(slots, b0, id, slot, blob);
      users[id - 1] := slot;
      assert users[..] == slots[id - 1 := slot];
      rc := WriteAdd(id, slot.how, blob, db');
      if rc != Ok {
        users[id - 1] := EMPTY_SLOT;
        assert users[..] == slots;
        EmptySlotHides(slots, b0, Blobs(), id);
      } else {
        SlotFilled(slots, b0, Blobs(), id, slot, blob);
      }
    }

    /** The same without a credential: only the index is written. */
    method CommitBareAdd(id: nat, slot: Slot) returns (rc: Rc)
      requires Valid() && ValidId(id) && users[id - 1] == EMPTY_SLOT && FitsSlot(slot, id, [])
      modifies users, nvm
      ensures Valid()
      ensures var db' := old(Db())[id - 1 := Used(AccountOf(slot, []))];
        && Db() == (if rc == Ok then db' else old(Db()))
        && Committed(AddSteps(db', id), rc)
    {
      ghost var slots, b0 := users[..], Blobs();
      SlotFilled(slots, b0, b0, id, slot, []);
      users[id - 1] := slot;
      assert users[..] == slots[id - 1 := slot];
      rc := CommitIndex(Db());
      if rc != Ok {
        users[id - 1] := EMPTY_SLOT;
        assert users[..] == slots;
        SameCredsSameDb(slots, b0, Blobs());
      }
    }

    twostate predicate NvmUntouched()
      reads this, nvm
    {
      && nvm == old(nvm)
      && (nvm != null ==>
            && nvm.objects == old(nvm.objects) && nvm.faults == old(nvm.faults) && nvm.visited == old(nvm.visited)
            && (old(nvm.readFaults) == [] ==> nvm.readFaults == []))
    }

    /** Key count into range, unused key ids to zero. */
    method ClampKeyIds(perms: Perms) returns (clamped: Perms)
      ensures clamped == Clamp(perms)
    {
      var count, ids := perms.keyIdCount, perms.keyIds;
      if count > MAX_KEY_IDS {
        count := MAX_KEY_IDS;
      }
      for j := count to MAX_KEY_IDS
        invariant |ids| == MAX_KEY_IDS
        invariant forall k | 0 <= k < MAX_KEY_IDS :: ids[k] == if count <= k < j then 0 else perms.keyIds[k]
      {
        ids := ids[j := 0];
      }
      assert ids == Clamp(perms).keyIds;
      clamped := Perms(perms.groups, perms.actions, count, ids);
    }

    /** The record and the credential of a new user. */
    method FormSlot(name: CString, perms: Perms, how: Method, data: seq<byte>, id: nat, ghost db: Db)
      returns (rc: Rc, slot: Slot, blob: seq<byte>)
      requires Sound(cfg) && (data != [] ==> MethodSupported(cfg, how))
      requires Find(db, name).None? && ValidId(id) && FirstFree(db) == Some(id - 1)
      ensures rc != Ok ==> AddChange(cfg, db, name, perms, how, data) == Refused(rc)
      ensures rc == Ok ==> FitsSlot(slot, id, blob)
      ensures rc == Ok ==> AddChange(cfg, db, name, perms, how, data) == Accepted(db[id - 1 := Used(AccountOf(slot, blob))], id)
    {
      slot, blob := EMPTY_SLOT, [];
      var clamped := ClampKeyIds(perms);
      if data != [] {
        rc, blob := BuildCred(how, data);
        if rc != Ok {
          return;
        }
      }
      slot := Slot(Record(id, StoredName(name), clamped, false), if blob != [] then how else NoMethod, |blob|);
      AddAccepted(cfg, db, name, perms, how, data, id, blob, slot);
      rc := Ok;
    }

    /** The refusals of an add that do not depend on the credential itself, and the slot otherwise. */
    method AdmitAdd(name: CString, how: Method, data: seq<byte>, ghost perms: Perms, ghost db: Db) returns (rc: Rc, id: nat)
      requires Valid() && db == Db()
      ensures rc != Ok ==> AddChange(cfg, db, name, perms, how, data) == Refused(rc)
      ensures rc == Ok ==> (data != [] ==> MethodSupported(cfg, how)) && Find(db, name).None?
      ensures rc == Ok ==> FirstFree(db) == Some(id - 1) && ValidId(id) && users[id - 1] == EMPTY_SLOT
    {
      if data != [] && !MethodSupported(cfg, how) {
        return BadArgs, NO_USER;
      }
      rc, id := AllocateSlot(name, db);
    }

    /** All of an add that comes before the first write: checks, slot and credential. */
    method PrepareAdd(name: CString, perms: Perms, how: Method, data: seq<byte>, ghost db: Db)
      returns (rc: Rc, id: nat, slot: Slot, blob: seq<byte>)
      requires Valid() && db == Db()
      ensures rc != Ok ==> AddChange(cfg, db, name, perms, how, data) == Refused(rc) && id == NO_USER
      ensures rc == Ok ==> ValidId(id) && users[id - 1] == EMPTY_SLOT && FitsSlot(slot, id, blob)
      ensures rc == Ok ==> AddChange(cfg, db, name, perms, how, data) == Accepted(db[id - 1 := Used(AccountOf(slot, blob))], id)
    {
      slot, blob := EMPTY_SLOT, [];
      rc, id := AdmitAdd(name, how, data, perms, db);
      if rc == Ok {
        rc, slot, blob := FormSlot(name, perms, how, data, id, db);
      }
      if rc != Ok {
        id := NO_USER;
      }
    }

    /** The new slot with its credential, if it has one. */
    method CommitSlot(id: nat, slot: Slot, blob: seq<byte>) returns (rc: Rc)
      requires Valid() && ValidId(id) && users[id - 1] == EMPTY_SLOT && FitsSlot(slot, id, blob)
      modifies users, ramCred, nvm
      ensures Valid()
      ensures var db' := old(Db())[id - 1 := Used(AccountOf(slot, blob))];
        && Db() == (if rc == Ok then db' else old(Db()))
        && Committed(AddSteps(db', id), rc)
    {
      if blob != [] {
        rc := CommitAdd(id, slot, blob);
      } else {
        rc := CommitBareAdd(id, slot);
      }
    }

    /** wh_Auth_BaseUserAdd */
    method UserAdd(name: CString, perms: Perms, how: Method, data: seq<byte>) returns (rc: Rc, id: nat)
      requires Valid()
      modifies users, ramCred, nvm
      ensures Valid()
      ensures var c := AddChange(cfg, old(Db()), name, perms, how, data);
        if c.Refused? then rc == c.rc && id == NO_USER && Db() == old(Db()) && NvmUntouched()
        else
          && id == (if rc == Ok then c.id else NO_USER)
          && Db() == (if rc == Ok then c.db else old(Db()))
          && Committed(AddSteps(c.db, c.id), rc)
    {
      var slot, blob;
      rc, id, slot, blob := PrepareAdd(name, perms, how, data, Db());
      if rc != Ok {
        return;
      }
      rc := CommitSlot(id, slot, blob);
      if rc != Ok {
        id := NO_USER;
      }
    }

    /** Put a record back and write the index with it; a failure is ignored. */
    method BringBack(id: nat, backup: Slot, ghost db: Db)
      requires Shaped() && RamShape(Blobs()) && ValidId(id) && SlotNumbered(backup, id - 1)
      requires forall i | 0 <= i < MAX_USERS :: SlotNumbered(users[i], i)
      requires Records(db) == Records(DbOf(users[..][id - 1 := backup], Blobs()))
      modifies users, nvm
      ensures Shaped() && RamShape(Blobs()) && SameCreds(old(Blobs()), Blobs())
      ensures users[..] == old(users[..])[id - 1 := backup]
      ensures nvm != null ==>
        && nvm.faults == Rest(old(nvm.faults))
        && nvm.objects == (if Next(old(nvm.faults)) == Ok then Apply(layout, old(nvm.objects), PutIndex(db)) else old(nvm.objects))
        && nvm.visited == old(nvm.visited) + (if Next(old(nvm.faults)) == Ok then [nvm.objects] else [])
        && nvm.readFaults == old(nvm.readFaults)
    {
      ghost var slots := users[..];
      users[id - 1] := backup;
      assert users[..] == slots[id - 1 := backup];
      var _ := PersistIndex(db);
    }

    /** The blob goes; if it cannot, the record comes back. */
    method DropOrBringBack(id: nat, backup: Slot, ghost db: Db) returns (rc: Rc)
      requires Shaped() && RamShape(Blobs()) && ValidId(id) && SlotNumbered(backup, id - 1)
      requires forall i | 0 <= i < MAX_USERS :: SlotNumbered(users[i], i)
      requires Records(db) == Records(DbOf(users[..][id - 1 := backup], Blobs()))
      modifies users, ramCred, nvm
      ensures Shaped() && RamShape(Blobs())
      ensures SameCredsExcept(old(Blobs()), Blobs(), id - 1)
      ensures rc != Ok ==> SameCreds(old(Blobs()), Blobs())
      ensures users[..] == if rc == Ok then old(users[..]) else old(users[..])[id - 1 := backup]
      ensures Committed([Step(DropCred(id), [PutIndex(db)])], rc)
    {
      if nvm != null {
        DropOutcomes(layout, nvm.objects, db, id, nvm.faults);
      }
      ghost var slots := users[..];
      rc := DestroyCred(id);
      if rc != Ok {
        RecordsIgnoreCreds(slots[id - 1 := backup], old(Blobs()), Blobs());
        BringBack(id, backup, db);
      }
    }

    /** The index without the user, then the blob; bring the entry back if the blob stays. */
    method WriteDelete(id: nat, backup: Slot, ghost db: Db, ghost db': Db) returns (rc: Rc)
      requires Shaped() && RamShape(Blobs()) && ValidId(id)
      requires users[id - 1] == EMPTY_SLOT && SlotNumbered(backup, id - 1)
      requires forall i | 0 <= i < MAX_USERS :: SlotNumbered(users[i], i)
      requires Records(db') == Records(Db())
      requires Records(db) == Records(DbOf(users[..][id - 1 := backup], Blobs()))
      requires CredAt(db, id).Some? <==> backup.credLen > 0
      modifies users, ramCred, nvm
      ensures Shaped() && RamShape(Blobs())
      ensures SameCredsExcept(old(Blobs()), Blobs(), id - 1)
      ensures rc != Ok ==> SameCreds(old(Blobs()), Blobs())
      ensures users[..] == if rc == Ok then old(users[..]) else old(users[..])[id - 1 := backup]
      ensures Committed(DeleteSteps(db, db', id), rc)
    {
      ghost var first, v := Apply(layout, if nvm == null then map[] else nvm.objects, PutIndex(db')), if nvm == null then [] else nvm.visited;
      ghost var faults := if nvm == null then [] else nvm.faults;
      ghost var rest := Commit(layout, first, [Step(DropCred(id), [PutIndex(db)])], Rest(faults));
      DeleteInTwo(layout, if nvm == null then map[] else nvm.objects, db, db', id, faults);
      ghost var slots := users[..];
      rc := PersistIndex(db');
      if rc != Ok {
        users[id - 1] := backup;
      } else if backup.credLen > 0 {
        RecordsIgnoreCreds(slots[id - 1 := backup], old(Blobs()), Blobs());
        rc := DropOrBringBack(id, backup, db);
      }
      assert v + [first] + rest.visited == v + ([first] + rest.visited);
    }

    /** Empty the slot and write that; the record comes back on failure. */
    method CommitDelete(id: nat) returns (rc: Rc)
      requires Valid() && ValidId(id) && users[id - 1].user.userId == id
      modifies users, ramCred, nvm
      ensures Valid()
      ensures var db' := old(Db())[id - 1 := Free];
        Db() == (if rc == Ok then db' else old(Db())) && Committed(DeleteSteps(old(Db()), db', id), rc)
    {
      ghost var slots, b0, db := users[..], Blobs(), Db();
      var backup := users[id - 1];
      SlotEmptyable(slots, b0, id);
      users[id - 1] := EMPTY_SLOT;
      assert users[..] == slots[id - 1 := EMPTY_SLOT];
      PutBack(slots, id - 1, EMPTY_SLOT);
      rc := WriteDelete(id, backup, db, db[id - 1 := Free]);
      DeleteSettles(slots, users[..], b0, Blobs(), id, rc == Ok);
    }

    /** The checks of a delete: only an admin deletes, and only a user. */
    method CheckDelete(caller: nat, id: nat) returns (rc: Rc)
      requires Valid()
      ensures var c := DeleteChange(Db(), caller, id); rc == if c.Refused? then c.rc else Ok
      ensures rc == Ok ==> DeleteChange(Db(), caller, id).Accepted? && users[id - 1].user.userId == id
    {
      if !ValidId(id) {
        return NotFound;
      }
      if !ValidId(caller) {
        return BadArgs;
      }
      SlotInDb(users[..], Blobs(), caller - 1);
      if !IsAdmin(users[caller - 1].user.perms) {
        return Access;
      }
      SlotInDb(users[..], Blobs(), id - 1);
      rc := if users[id - 1].user.userId == NO_USER then NotFound else Ok;
    }

    /** wh_Auth_BaseUserDelete */
    method UserDelete(caller: nat, id: nat) returns (rc: Rc)
      requires Valid()
      modifies users, ramCred, nvm
      ensures Valid()
      ensures var c := DeleteChange(old(Db()), caller, id);
        if c.Refused? then rc == c.rc && Db() == old(Db()) && NvmUntouched()
        else Db() == (if rc == Ok then c.db else old(Db())) && Committed(DeleteSteps(old(Db()), c.db, id), rc)
    {
      rc := CheckDelete(caller, id);
      if rc == Ok {
        rc := CommitDelete(id);
      }
    }

    /** Assign fields of the user record in one slot. */
    method SetUser(id: nat, user: Record)
      requires Valid() && ValidId(id) && users[id - 1].user.userId == id
      requires user.userId == id && |user.name| <= MAX_NAME_LEN && user.perms.keyIdCount <= MAX_KEY_IDS
      modifies users
      ensures Valid()
      ensures users[..] == old(users[..])[id - 1 := old(users[id - 1]).(user := user)]
      ensures old(Db())[id - 1].Used?
      ensures Db() == old(Db())[id - 1 := Used(Account(user.name, user.perms, user.active, old(Db())[id - 1].account.cred))]
    {
      ghost var slots := users[..];
      UserUpdated(slots, Blobs(), id, user);
      users[id - 1] := users[id - 1].(user := user);
      assert users[..] == slots[id - 1 := slots[id - 1].(user := user)];
    }

    /** New permissions into the slot, then the index; the old ones again on failure. */
    method CommitPermissions(id: nat, perms: Perms) returns (rc: Rc)
      requires Valid() && ValidId(id) && users[id - 1].user.userId == id
      requires Db()[id - 1].Used? && perms.keyIdCount <= MAX_KEY_IDS
      modifies users, nvm
      ensures Valid()
      ensures var db' := old(Db())[id - 1 := Used(old(Db())[id - 1].account.(perms := perms))];
        Db() == (if rc == Ok then db' else old(Db())) && Committed([Step(PutIndex(db'), [])], rc)
    {
      ghost var slots, b := users[..], Blobs();
      ghost var db' := Db()[id - 1 := Used(Db()[id - 1].account.(perms := perms))];
      var backup := users[id - 1];
      var slot := backup.(user := backup.user.(perms := perms));
      PermissionsSwapped(slots, b, id, perms);
      users[id - 1] := slot;
      assert users[..] == slots[id - 1 := slot];
      rc := CommitIndex(db');
      if rc != Ok {
        users[id - 1] := backup;
        assert users[..] == slots;
        SameCredsSameDb(slots, b, Blobs());
      }
    }

    /** The checks of a permission change. */
    method CheckSetPermissions(caller: nat, id: nat, ghost perms: Perms) returns (rc: Rc)
      requires Valid()
      ensures var c := SetPermissionsChange(Db(), caller, id, perms); rc == if c.Refused? then c.rc else Ok
      ensures rc == Ok ==>
        SetPermissionsChange(Db(), caller, id, perms).Accepted? && users[id - 1].user.userId == id && Db()[id - 1].Used?
    {
      if !ValidId(id) || !ValidId(caller) {
        return NotFound;
      }
      SlotInDb(users[..], Blobs(), caller - 1);
      if !IsAdmin(users[caller - 1].user.perms) {
        return Access;
      }
      SlotInDb(users[..], Blobs(), id - 1);
      rc := if users[id - 1].user.userId == NO_USER then NotFound else Ok;
    }

    /** wh_Auth_BaseUserSetPermissions */
    method UserSetPermissions(caller: nat, id: nat, perms: Perms) returns (rc: Rc)
      requires Valid()
      modifies users, nvm
      ensures Valid()
      ensures var c := SetPermissionsChange(old(Db()), caller, id, perms);
        if c.Refused? then rc == c.rc && Db() == old(Db()) && NvmUntouched()
        else Db() == (if rc == Ok then c.db else old(Db())) && Committed([Step(PutIndex(c.db), [])], rc)
    {
      rc := CheckSetPermissions(caller, id, perms);
      if rc == Ok {
        var clamped := ClampKeyIds(perms);
        rc := CommitPermissions(id, clamped);
      }
    }

    /** The checks of a logout: oneself, or anybody when an admin. */
    method CheckLogout(caller: nat, id: nat) returns (rc: Rc)
      requires Valid()
      ensures var c := LogoutChange(Db(), caller, id); rc == if c.Refused? then c.rc else Ok
      ensures rc == Ok ==> ValidId(id) && LogoutChange(Db(), caller, id).Accepted?
    {
      if caller == NO_USER || id == NO_USER {
        return BadArgs;
      }
      if !ValidId(caller) || !ValidId(id) {
        return NotFound;
      }
      SlotInDb(users[..], Blobs(), caller - 1);
      rc := if caller != id && !IsAdmin(users[caller - 1].user.perms) then Access else Ok;
    }

    /** The active flag of a slot goes down; a slot without a user stays as it is. */
    method SignOutSlot(id: nat)
      requires Valid() && ValidId(id)
      modifies users
      ensures Valid()
      ensures var e := old(Db())[id - 1];
        Db() == if e.Free? then old(Db()) else old(Db())[id - 1 := Used(e.account.(active := false))]
    {
      SlotInDb(users[..], Blobs(), id - 1);
      if users[id - 1].user.userId != NO_USER {
        SetUser(id, users[id - 1].user.(active := false));
      }
    }

    /** wh_Auth_BaseLogout */
    method Logout(caller: nat, id: nat) returns (rc: Rc)
      requires Valid()
      modifies users
      ensures Valid() && NvmUntouched()
      ensures var c := LogoutChange(old(Db()), caller, id);
        if c.Refused? then rc == c.rc && Db() == old(Db()) else rc == Ok && Db() == c.db
    {
      rc := CheckLogout(caller, id);
      if rc != Ok {
        return;
      }
      SignOutSlot(id);
    }

    /** wh_Auth_BaseUserGet */
    method UserGet(caller: nat, name: CString) returns (found: Lookup)
      requires Valid()
      ensures found == GetUser(Db(), caller, name)
    {
      ghost var slots, b := users[..], Blobs();
      if !ValidId(caller) {
        return LookupFails(Access);
      }
      SlotInDb(slots, b, caller - 1);
      var admin := IsAdmin(users[caller - 1].user.perms);
      var i := FindUser(name);
      if i.None? || users[i.value].user.userId == NO_USER {
        if i.Some? {
          SlotInDb(slots, b, i.value);
        }
        return LookupFails(if admin then NotFound else Access);
      }
      SlotInDb(slots, b, i.value);
      if !admin && users[i.value].user.userId != caller {
        return LookupFails(Access);
      }
      found := Found(users[i.value].user.userId, users[i.value].user.perms);
    }

    /** wh_Auth_BaseFindUser */
    method FindUser(name: CString) returns (r: Option<nat>)
      requires Valid()
      ensures r == Find(Db(), name)
    {
      for i := 0 to MAX_USERS
        invariant forall k | 0 <= k < i :: users[k].user.name != name
      {
        if users[i].user.name == name {
          FoundAt(users[..], Blobs(), name, i);
          return Some(i);
        }
      }
      NotFoundAnywhere(users[..], Blobs(), name);
      r := None;
    }

    /** wh_Auth_BaseUserSetCredentials, checking the current credential; a storage error reads as a refusal. */
    method VerifyCurrent(id: nat, current: seq<byte>) returns (rc: Rc)
      requires Valid() && ValidId(id) && users[id - 1].user.userId == id
      modifies nvm
      ensures Valid() && Db() == old(Db()) && NvmUntouched() && Db()[id - 1].Used?
      ensures rc == if current != [] && Db()[id - 1].account.cred.Some? && old(ReadFault()) != Ok then Access
                    else CheckCurrent(cfg, Db()[id - 1].account.cred, current)
    {
      CredentialFacts(users[..], Blobs(), id);
      if users[id - 1].credLen == 0 {
        return if current != [] then BadArgs else Ok;
      }
      if current == [] {
        return Access;
      }
      var stored;
      rc, stored := LoadCred(id);
      if rc != Ok || |stored| != users[id - 1].credLen {
        return Access;
      }
      if users[id - 1].how == Pin && cfg.crypto {
        var hash := cfg.sha(current);
        return if hash.None? then Aborted else if stored != hash.value then Access else Ok;
      }
      rc := if stored != current then Access else Ok;
    }

    /** One atomic object write; the cached method and length follow only on success. */
    method CommitPut(id: nat, how: Method, blob: seq<byte>) returns (rc: Rc)
      requires Valid() && ValidId(id) && users[id - 1].user.userId == id && Db()[id - 1].Used?
      requires 0 < |blob| <= MAX_CRED_LEN && how != NoMethod
      modifies users, ramCred, nvm
      ensures Valid()
      ensures Db() == if rc == Ok then old(Db())[id - 1 := Used(old(Db())[id - 1].account.(cred := Some(Cred(how, blob))))] else old(Db())
      ensures Committed([Step(PutCred(id, Cred(how, blob)), [])], rc)
    {
      ghost var slots, b := users[..], Blobs();
      if nvm != null {
        CommitOne(layout, nvm.objects, Step(PutCred(id, Cred(how, blob)), []), nvm.faults);
      }
      rc := PersistCred(id, how, blob);
      if rc == Ok {
        users[id - 1] := users[id - 1].(how := how, credLen := |blob|);
        assert users[..] == slots[id - 1 := slots[id - 1].(how := how, credLen := |blob|)];
        CredentialSwapped(slots, b, Blobs(), id, how, blob);
      }
    }

    /** Clearing a credential removes its object; the user is then without a method. */
    method CommitDrop(id: nat) returns (rc: Rc)
      requires Valid() && ValidId(id) && users[id - 1].user.userId == id && Db()[id - 1].Used?
      modifies users, ramCred, nvm
      ensures Valid()
      ensures Db() == if rc == Ok then old(Db())[id - 1 := Used(old(Db())[id - 1].account.(cred := None))] else old(Db())
      ensures Committed([Step(DropCred(id), [])], rc)
    {
      ghost var slots, b := users[..], Blobs();
      if nvm != null {
        CommitOne(layout, nvm.objects, Step(DropCred(id), []), nvm.faults);
      }
      rc := DestroyCred(id);
      if rc == Ok {
        users[id - 1] := users[id - 1].(how := NoMethod, credLen := 0);
        assert users[..] == slots[id - 1 := slots[id - 1].(how := NoMethod, credLen := 0)];
        CredentialSwapped(slots, b, Blobs(), id, NoMethod, []);
      }
    }

    /** An empty new credential clears the old one, if there is one. */
    method CommitClear(id: nat) returns (rc: Rc)
      requires Valid() && ValidId(id) && users[id - 1].user.userId == id && Db()[id - 1].Used?
      modifies users, ramCred, nvm
      ensures Valid()
      ensures var db' := old(Db())[id - 1 := Used(old(Db())[id - 1].account.(cred := None))];
        Db() == (if rc == Ok then db' else old(Db())) && Committed(SetCredentialsSteps(old(Db()), db', id), rc)
    {
      CredentialFacts(users[..], Blobs(), id);
      ClearSteps(Db(), id);
      rc := Ok;
      if users[id - 1].credLen > 0 {
        rc := CommitDrop(id);
      }
    }

    method CommitCredential(id: nat, how: Method, blob: seq<byte>) returns (rc: Rc)
      requires Valid() && ValidId(id) && users[id - 1].user.userId == id && Db()[id - 1].Used?
      requires |blob| <= MAX_CRED_LEN && how != NoMethod
      modifies users, ramCred, nvm
      ensures Valid()
      ensures var db' := old(Db())[id - 1 := Used(old(Db())[id - 1].account.(cred := if blob == [] then None else Some(Cred(how, blob))))];
        Db() == (if rc == Ok then db' else old(Db())) && Committed(SetCredentialsSteps(old(Db()), db', id), rc)
    {
      if blob == [] {
        rc := CommitClear(id);
      } else {
        rc := CommitPut(id, how, blob);
      }
    }

    /** The checks of a credential change that come before the current credential. */
    method CheckSetCredentials(caller: nat, id: nat, how: Method, ghost current: seq<byte>, data: seq<byte>) returns (rc: Rc)
      requires Valid()
      ensures rc != Ok ==> SetCredentialsChange(cfg, Db(), caller, id, how, current, data) == Refused(rc)
      ensures rc != Ok ==> !Verifies(cfg, Db(), caller, id, how, current, data)
      ensures rc == Ok ==>
        && ValidId(id) && ValidId(caller) && (caller == id || IsAdmin(PermsAt(Db(), caller)))
        && users[id - 1].user.userId == id && MethodSupported(cfg, how) && |data| <= MAX_CRED_LEN
    {
      if !ValidId(id) || !ValidId(caller) {
        return BadArgs;
      }
      SlotInDb(users[..], Blobs(), caller - 1);
      if caller != id && !IsAdmin(users[caller - 1].user.perms) {
        return Access;
      }
      if !MethodSupported(cfg, how) {
        return BadArgs;
      }
      SlotInDb(users[..], Blobs(), id - 1);
      if users[id - 1].user.userId == NO_USER {
        return NotFound;
      }
      rc := if |data| > MAX_CRED_LEN then BufferSize else Ok;
    }

    /** wh_Auth_BaseUserSetCredentials */
    method UserSetCredentials(caller: nat, id: nat, how: Method, current: seq<byte>, data: seq<byte>) returns (rc: Rc)
      requires Valid()
      modifies users, ramCred, nvm
      ensures Valid()
      ensures var c := SetCredentialsChange(cfg, old(Db()), caller, id, how, current, data);
        if Verifies(cfg, old(Db()), caller, id, how, current, data) && old(ReadFault()) != Ok then
          rc == Access && Db() == old(Db()) && NvmUntouched()
        else if c.Refused? then rc == c.rc && Db() == old(Db()) && NvmUntouched()
        else
          && ValidId(id) && Db() == (if rc == Ok then c.db else old(Db()))
          && Committed(SetCredentialsSteps(old(Db()), c.db, id), rc)
    {
      rc := CheckSetCredentials(caller, id, how, current, data);
      if rc == Ok {
        rc := ReplaceCredential(caller, id, how, current, data);
      }
    }

    /** The current credential checked and the new one built, before anything is written. */
    method PrepareCredential(ghost caller: nat, id: nat, how: Method, current: seq<byte>, data: seq<byte>) returns (rc: Rc, blob: seq<byte>)
      requires Valid() && ValidId(id) && ValidId(caller) && (caller == id || IsAdmin(PermsAt(Db(), caller)))
      requires users[id - 1].user.userId == id && MethodSupported(cfg, how) && |data| <= MAX_CRED_LEN
      modifies nvm
      ensures Valid() && Db() == old(Db()) && NvmUntouched() && Db()[id - 1].Used? && |blob| <= MAX_CRED_LEN
      ensures var c := SetCredentialsChange(cfg, Db(), caller, id, how, current, data);
        if Verifies(cfg, Db(), caller, id, how, current, data) && old(ReadFault()) != Ok then rc == Access
        else if rc != Ok then c == Refused(rc)
        else c == Accepted(Db()[id - 1 := Used(Db()[id - 1].account.(cred := if blob == [] then None else Some(Cred(how, blob))))], id)
    {
      blob := [];
      rc := VerifyCurrent(id, current);
      if rc != Ok {
        return;
      }
      if data != [] {
        rc, blob := BuildCred(how, data);
        if rc != Ok {
          return rc, [];
        }
      }
      SetCredentialsAccepted(cfg, Db(), caller, id, how, current, data, blob);
    }

    /** Checked and built, then committed. */
    method ReplaceCredential(ghost caller: nat, id: nat, how: Method, current: seq<byte>, data: seq<byte>) returns (rc: Rc)
      requires Valid() && ValidId(id) && ValidId(caller) && (caller == id || IsAdmin(PermsAt(Db(), caller)))
      requires users[id - 1].user.userId == id && MethodSupported(cfg, how) && |data| <= MAX_CRED_LEN
      modifies users, ramCred, nvm
      ensures Valid()
      ensures var c := SetCredentialsChange(cfg, old(Db()), caller, id, how, current, data);
        if Verifies(cfg, old(Db()), caller, id, how, current, data) && old(ReadFault()) != Ok then
          rc == Access && Db() == old(Db()) && NvmUntouched()
        else if c.Refused? then rc == c.rc && Db() == old(Db()) && NvmUntouched()
        else
          && ValidId(id) && Db() == (if rc == Ok then c.db else old(Db()))
          && Committed(SetCredentialsSteps(old(Db()), c.db, id), rc)
    {
      var blob;
      rc, blob := PrepareCredential(caller, id, how, current, data);
      if rc != Ok {
        return;
      }
      rc := CommitCredential(id, how, blob);
    }

    /** The user of this name, if the processed PIN is the stored one. */
    method ComparePin(name: CString, ghost data: seq<byte>, check: seq<byte>) returns (rc: Rc, user: Option<nat>)
      requires Valid() && ProcessPin(cfg, data) == Bytes(check)
      modifies nvm
      ensures Valid() && Db() == old(Db()) && NvmUntouched()
      ensures
        if Consults(cfg, Db(), Pin, name, data) && old(ReadFault()) != Ok then rc == old(ReadFault()) && user == None
        else rc == Ok && user == Matching(cfg, Db(), Pin, name, data)
    {
      rc, user := Ok, None;
      PinMatch(cfg, Db(), name, data, check);
      var found := FindUser(name);
      if found.None? {
        return;
      }
      var i := found.value;
      if users[i].how != Pin {
        NotPinOwner(users[..], Blobs(), i, Pin);
        return;
      }
      PinOwner(users[..], Blobs(), i);
      if users[i].credLen == |check| {
        var same;
        rc, same := CompareCred(i + 1, check);
        if rc == Ok && same {
          user := found;
        }
      }
    }

    /** wh_Auth_BaseCheckPin */
    method CheckPin(name: CString, data: seq<byte>) returns (rc: Rc, user: Option<nat>)
      requires Valid()
      modifies nvm
      ensures Valid() && Db() == old(Db()) && NvmUntouched()
      ensures ProcessPin(cfg, data).Fails? ==> rc == ProcessPin(cfg, data).rc && user == None
      ensures ProcessPin(cfg, data).Bytes? ==>
        if Consults(cfg, Db(), Pin, name, data) && old(ReadFault()) != Ok then rc == old(ReadFault()) && user == None
        else rc == Ok && user == Matching(cfg, Db(), Pin, name, data)
    {
      user := None;
      var check;
      rc, check := BuildCred(Pin, data);
      if rc != Ok {
        return;
      }
      rc, user := ComparePin(name, data, check);
    }

    method CompareCred(id: nat, check: seq<byte>) returns (rc: Rc, same: bool)
      requires Valid() && ValidId(id) && users[id - 1].user.userId != NO_USER && users[id - 1].credLen > 0
      requires Db()[id - 1].Used? && Db()[id - 1].account.cred.Some?
      modifies nvm
      ensures Valid() && Db() == old(Db()) && NvmUntouched()
      ensures rc == old(ReadFault()) && same == (rc == Ok && Db()[id - 1].account.cred.value.bytes == check)
    {
      var stored;
      rc, stored := LoadCred(id);
      same := rc == Ok && |stored| == |check| && stored == check;
    }

    /** wh_Auth_BaseCheckCertificate */
    method CheckCertificate(name: CString, data: seq<byte>) returns (rc: Rc, user: Option<nat>)
      requires Valid() && MethodSupported(cfg, Certificate)
      modifies nvm
      ensures Valid() && Db() == old(Db()) && NvmUntouched()
      ensures
        if Consults(cfg, Db(), Certificate, name, data) && old(ReadFault()) != Ok then rc == old(ReadFault()) && user == None
        else rc == Ok && user == Matching(cfg, Db(), Certificate, name, data)
    {
      user := None;
      rc := Ok;
      var found := FindUser(name);
      if found.Some? && users[found.value].how == Certificate {
        PinOwner(users[..], Blobs(), found.value);
        var stored;
        rc, stored := LoadCred(users[found.value].user.userId);
        if rc == Ok && |stored| == users[found.value].credLen && cfg.verify(stored, data) {
          user := found;
        }
      } else if found.Some? {
        NotPinOwner(users[..], Blobs(), found.value, Certificate);
      }
    }

    /** wh_Auth_BaseLogin */
    method Login(how: Method, name: CString, data: seq<byte>) returns (rc: Rc, loggedIn: bool, id: nat, perms: Perms)
      requires Valid()
      modifies users, nvm
      ensures Valid() && NvmUntouched()
      ensures
        if Consults(cfg, old(Db()), how, name, data) && old(ReadFault()) != Ok then
          rc == old(ReadFault()) && !loggedIn && Db() == old(Db())
        else Answers(LoginChange(cfg, old(Db()), how, name, data), old(Db()), rc, loggedIn, id, perms, Db())
    {
      loggedIn, id, perms := false, NO_USER, NO_PERMS;
      if !MethodSupported(cfg, how) {
        return BadArgs, false, NO_USER, NO_PERMS;
      }
      var user;
      rc, user := CheckCredential(how, name, data);
      if rc != Ok {
        return;
      }
      LoginByMatch(cfg, Db(), how, name, data);
      if user.Some? {
        loggedIn, id, perms := Admit(user.value);
      }
    }

    method CheckCredential(how: Method, name: CString, data: seq<byte>) returns (rc: Rc, user: Option<nat>)
      requires Valid() && MethodSupported(cfg, how)
      modifies nvm
      ensures Valid() && Db() == old(Db()) && NvmUntouched()
      ensures
        if how == Pin && ProcessPin(cfg, data).Fails? then rc == ProcessPin(cfg, data).rc && rc != Ok
        else if Consults(cfg, Db(), how, name, data) && old(ReadFault()) != Ok then rc == old(ReadFault())
        else rc == Ok && user == Matching(cfg, Db(), how, name, data)
    {
      if how == Pin {
        rc, user := CheckPin(name, data);
      } else {
        rc, user := CheckCertificate(name, data);
      }
    }

    /** A matched user is let in unless already signed in. */
    method Admit(i: nat) returns (loggedIn: bool, id: nat, perms: Perms)
      requires Valid() && i < MAX_USERS && Db()[i].Used?
      modifies users
      ensures Valid() && NvmUntouched()
      ensures var account := old(Db())[i].account;
        && loggedIn == !account.active
        && (loggedIn ==> id == i + 1 && perms == account.perms)
        && Db() == if loggedIn then old(Db())[i := Used(account.(active := true))] else old(Db())
    {
      loggedIn, id, perms := false, NO_USER, NO_PERMS;
      ghost var account := Db()[i].account;
      SlotInDb(users[..], Blobs(), i);
      var user := users[i].user;
      if user.active {
        return;
      }
      SetUser(i + 1, user.(active := true));
      assert Account(user.name, user.perms, true, account.cred) == account.(active := true);
      loggedIn, id, perms := true, user.userId, user.perms;
    }

    /** wh_Auth_BaseLoadCredHeader: the method byte and length, NotFound for a user without credential. */
    method LoadCredHeader(id: nat) returns (rc: Rc, how: Method, len: nat)
      requires nvm != null && nvm.Honest() && ValidId(id)
      modifies nvm`readFaults
      ensures nvm.Honest() && nvm.readFaults == Rest(old(nvm.readFaults))
      ensures Next(old(nvm.readFaults)) != Ok ==> rc == Next(old(nvm.readFaults)) && rc != NotFound
      ensures Next(old(nvm.readFaults)) == Ok ==>
        match CredUnder(nvm.objects, id)
        case None => rc == NotFound
        case Some(c) => rc == Ok && how == c.how && len == |c.bytes|
    {
      var tag;
      rc, tag, len := nvm.GetMetadata(CredId(id));
      how := MethodOf(tag);
    }

    /** One pass of the loop of wh_Auth_BaseLoadFromNvm: copy, sanitize, validate a slot. */
    method LoadSlot(i: nat, r: Record) returns (rc: Rc, slot: Slot)
      requires nvm != null && nvm.Honest() && i < MAX_USERS
      modifies nvm`readFaults
      ensures nvm.Honest()
      ensures old(nvm.readFaults) == [] ==> nvm.readFaults == []
      ensures rc == Ok ==> Restore(nvm.objects, i, r) == Some(EntryOf(slot, StoredCred(InNvm(nvm.objects), i)))
      ensures rc == Ok && CleanRecord(r) ==> SlotOk(slot, InNvm(nvm.objects), i)
      ensures old(nvm.readFaults) == [] ==> (rc == Ok <==> Restore(nvm.objects, i, r).Some?)
      ensures Restore(nvm.objects, i, r).None? ==> rc != Ok
    {
      var user := Record(r.userId, StoredName(r.name), r.perms, false);
      slot := Slot(user, NoMethod, 0);
      if user.userId == NO_USER {
        return if user.name != "" then Aborted else Ok, slot;
      }
      if user.userId != i + 1 || user.perms.keyIdCount > MAX_KEY_IDS {
        return Aborted, slot;
      }
      var how, len;
      rc, how, len := LoadCredHeader(i + 1);
      if rc == NotFound {
        return Ok, slot;
      }
      if rc != Ok {
        return;
      }
      if len == 0 || len > MAX_CRED_LEN || how == NoMethod {
        return Aborted, slot;
      }
      slot := Slot(user, how, len);
      ghost var bytes := CredUnder(nvm.objects, i + 1).value.bytes;
      assert bytes[..|bytes|] == bytes;
    }

    /**
     wh_Auth_BaseLoadFromNvm, into a table just cleared. What lies in records without a user is
     copied too; with an index as this backend writes it, that is nothing.
     */
    method LoadFromNvm() returns (rc: Rc)
      requires Shaped() && nvm != null
      requires forall i | 0 <= i < MAX_USERS :: users[i] == EMPTY_SLOT
      modifies users, nvm`readFaults
      ensures Shaped() && (CleanIndex(layout, nvm.objects) ==> Valid())
      ensures Db() == if rc == Ok && Reload(layout, nvm.objects).Some? then Reload(layout, nvm.objects).value else EMPTY_DB
      ensures Reload(layout, nvm.objects).None? ==> rc != Ok
      ensures old(nvm.readFaults) == [] ==> nvm.readFaults == [] && (rc == Ok <==> Reload(layout, nvm.objects).Some?)
    {
      ghost var store := nvm.objects;
      NothingLoaded(users[..], Blobs());
      var tag, len;
      rc, tag, len := nvm.GetMetadata(INDEX_ID);
      var data: seq<byte> := [];
      if rc == Ok {
        if len == IndexSize(layout) {
          rc, data := nvm.Read(INDEX_ID);
        } else {
          rc := Aborted;
        }
      }
      if rc == NotFound {
        return Ok;
      }
      if rc != Ok {
        return;
      }
      if data[..|MAGIC|] != MAGIC {
        return Aborted;
      }
      var records := layout.decode(data[|MAGIC|..]);
      rc := LoadRecords(records);
    }

    /** The loop of the load: stop at the first bad slot and leave the table empty. */
    method LoadRecords(records: seq<Record>) returns (rc: Rc)
      requires Shaped() && nvm != null && IndexReadable(layout, nvm.objects)
      requires records == IndexRecords(layout, nvm.objects)
      requires forall i | 0 <= i < MAX_USERS :: users[i] == EMPTY_SLOT
      modifies users, nvm`readFaults
      ensures Shaped() && (CleanIndex(layout, nvm.objects) ==> Valid())
      ensures Db() == if rc == Ok && Reload(layout, nvm.objects).Some? then Reload(layout, nvm.objects).value else EMPTY_DB
      ensures Reload(layout, nvm.objects).None? ==> rc != Ok
      ensures old(nvm.readFaults) == [] ==> nvm.readFaults == [] && (rc == Ok <==> Reload(layout, nvm.objects).Some?)
    {
      rc := Ok;
      var i := 0;
      while i < MAX_USERS && rc == Ok
        invariant 0 <= i <= MAX_USERS && nvm.Honest()
        invariant old(nvm.readFaults) == [] ==> nvm.readFaults == []
        invariant rc == Ok ==> Loaded(users[..], nvm.objects, records, i)
        invariant rc != Ok && old(nvm.readFaults) == [] ==> Reload(layout, nvm.objects).None?
        decreases MAX_USERS - i, rc == Ok
      {
        var slot;
        rc, slot := LoadSlot(i, records[i]);
        if rc == Ok {
          users[i] := slot;
          i := i + 1;
        } else {
          assert Restore(nvm.objects, i, records[i]).None? ==> Reload(layout, nvm.objects).None?;
        }
      }
      if rc != Ok {
        forall k | 0 <= k < users.Length {
          users[k] := EMPTY_SLOT;
        }
        NothingLoaded(users[..], Blobs());
      } else {
        AllLoaded(layout, users[..], nvm.objects);
      }
    }
  }

  /** The slots below n hold what their records restore to. */
  ghost predicate Loaded(slots: seq<Slot>, store: Store, records: seq<Record>, n: nat)
    requires n <= MAX_USERS == |slots| == |records|
  {
    forall k | 0 <= k < n ::
      && Restore(store, k, records[k]) == Some(EntryOf(slots[k], StoredCred(InNvm(store), k)))
      && (CleanRecord(records[k]) ==> SlotOk(slots[k], InNvm(store), k))
  }

  lemma AllLoaded(l: Layout, slots: seq<Slot>, store: Store)
    requires SoundLayout(l) && IndexReadable(l, store) && |slots| == MAX_USERS
    requires Loaded(slots, store, IndexRecords(l, store), MAX_USERS)
    ensures CleanIndex(l, store) ==> AllOk(slots, InNvm(store))
    ensures Reload(l, store) == Some(DbOf(slots, InNvm(store)))
  {
    forall i | 0 <= i < MAX_USERS
      ensures Restore(store, i, IndexRecords(l, store)[i]).Some?
    {
    }
    assert Reload(l, store).value == DbOf(slots, InNvm(store));
  }

  lemma NothingLoaded(slots: seq<Slot>, b: Blobs)
    requires |slots| == MAX_USERS && RamShape(b)
    requires forall i | 0 <= i < MAX_USERS :: slots[i] == EMPTY_SLOT
    ensures AllOk(slots, b) && DbOf(slots, b) == EMPTY_DB
  {
  }

  /** A login result as the specification has it. */
  predicate Answers(l: Login, db: Db, rc: Rc, loggedIn: bool, id: nat, perms: Perms, db': Db) {
    match l
    case LoginFails(code) => rc == code && !loggedIn && db' == db
    case NotLoggedIn => rc == Ok && !loggedIn && db' == db
    case LoggedIn(id', perms', db'') => rc == Ok && loggedIn && id == id' && perms == perms' && db' == db''
  }

  lemma LoginByMatch(cfg: Config, db: Db, how: Method, name: CString, data: seq<byte>)
    requires MethodSupported(cfg, how) && (how == Pin ==> ProcessPin(cfg, data).Bytes?)
    ensures var m := Matching(cfg, db, how, name, data);
      LoginChange(cfg, db, how, name, data)
        == if m.None? || db[m.value].account.active then NotLoggedIn
           else LoggedIn(m.value + 1, db[m.value].account.perms, db[m.value := Used(db[m.value].account.(active := true))])
  {
  }

  lemma PinMatch(cfg: Config, db: Db, name: CString, data: seq<byte>, check: seq<byte>)
    requires ProcessPin(cfg, data) == Bytes(check)
    ensures Matching(cfg, db, Pin, name, data) ==
      match Find(db, name)
      case None => None
      case Some(i) =>
        if db[i].Used? && db[i].account.cred == Some(Cred(Pin, check)) then Some(i) else None
  {
  }

  lemma PinOwner(slots: seq<Slot>, b: Blobs, i: nat)
    requires AllOk(slots, b) && i < MAX_USERS && slots[i].how != NoMethod
    ensures slots[i].user.userId == i + 1 && slots[i].credLen > 0
    ensures DbOf(slots, b)[i].Used? && DbOf(slots, b)[i].account.cred.Some?
    ensures DbOf(slots, b)[i].account.cred.value.how == slots[i].how
    ensures |DbOf(slots, b)[i].account.cred.value.bytes| == slots[i].credLen
  {
    assert SlotOk(slots[i], b, i);
  }

  lemma NotPinOwner(slots: seq<Slot>, b: Blobs, i: nat, how: Method)
    requires AllOk(slots, b) && i < MAX_USERS && slots[i].how != how && how != NoMethod
    ensures var e := DbOf(slots, b)[i]; e.Free? || e.account.cred.None? || e.account.cred.value.how != how
  {
    assert SlotOk(slots[i], b, i);
  }
}
