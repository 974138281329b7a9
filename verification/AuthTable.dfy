/**
 The user database as one abstract machine: a map from user name to user, with every call's
 return code. The slot table runs it, whether its credentials are in NVM or in RAM.
 */
module AuthTable {
  import opened Codes
  import opened Permissions
  import opened AuthDb
  import opened AuthStore
  import opened AuthHistory
  import opened AuthBase
  import opened AuthMap

  /** A user as the map holds it. */
  datatype User = User(id: nat, perms: Perms, active: bool, cred: Option<Cred>)

  type Users = map<CString, User>

  datatype Request = Do(call: Call) | Get(caller: nat, name: CString)

  /** What a caller sees: the return code, and the user id and permissions handed out. */
  datatype Reply = Reply(rc: Rc, id: nat, perms: Option<Perms>)

  function Failed(rc: Rc): Reply {
    Reply(rc, NO_USER, None)
  }

  const DONE := Reply(Ok, NO_USER, None)

  // -------------------------------------------------------------- the abstract machine

  /** The name of the user with this id. */
  ghost function NameOf(m: Users, id: nat): (r: Option<CString>)
    ensures r.Some? ==> r.value in m && m[r.value].id == id
    ensures r.None? ==> forall name | name in m :: m[name].id != id
  {
    if exists name | name in m :: m[name].id == id then
      var name :| name in m && m[name].id == id;
      Some(name)
    else None
  }

  /** The least id that no user has. */
  ghost function LeastFree(m: Users, id: nat): Option<nat>
    decreases MAX_USERS + 1 - id
  {
    if id > MAX_USERS then None
    else if NameOf(m, id).None? then Some(id)
    else LeastFree(m, id + 1)
  }

  ghost function PermsOf(m: Users, id: nat): Perms {
    match NameOf(m, id)
    case None => NO_PERMS
    case Some(name) => m[name].perms
  }

  ghost function MapAdd(cfg: Config, m: Users, name: CString, perms: Perms, how: Method, data: seq<byte>): (Users, Reply) {
    var free := LeastFree(m, 1);
    if data != [] && !MethodSupported(cfg, how) then (m, Failed(BadArgs))
    else if name in m then (m, Failed(BadArgs))
    else if free.None? then (m, Failed(BufferSize))
    else if name == "" then (m, Failed(BadArgs))
    else if data != [] && ProcessNew(cfg, how, data).Fails? then (m, Failed(ProcessNew(cfg, how, data).rc))
    else
      var cred := if data == [] then None else Some(Cred(how, ProcessNew(cfg, how, data).bytes));
      (m[StoredName(name) := User(free.value, Clamp(perms), false, cred)], Reply(Ok, free.value, None))
  }

  ghost function MapDelete(m: Users, caller: nat, id: nat): (Users, Reply) {
    if !ValidId(id) then (m, Failed(NotFound))
    else if !ValidId(caller) then (m, Failed(BadArgs))
    else if !IsAdmin(PermsOf(m, caller)) then (m, Failed(Access))
    else
      match NameOf(m, id)
      case None => (m, Failed(NotFound))
      case Some(name) => (m - {name}, DONE)
  }

  ghost function MapSetPermissions(m: Users, caller: nat, id: nat, perms: Perms): (Users, Reply) {
    if !ValidId(id) || !ValidId(caller) then (m, Failed(NotFound))
    else if !IsAdmin(PermsOf(m, caller)) then (m, Failed(Access))
    else
      match NameOf(m, id)
      case None => (m, Failed(NotFound))
      case Some(name) => (m[name := m[name].(perms := Clamp(perms))], DONE)
  }

  ghost function MapSetCredentials(cfg: Config, m: Users, caller: nat, id: nat, how: Method,
                                   current: seq<byte>, data: seq<byte>): (Users, Reply) {
    if !ValidId(id) || !ValidId(caller) then (m, Failed(BadArgs))
    else if caller != id && !IsAdmin(PermsOf(m, caller)) then (m, Failed(Access))
    else if !MethodSupported(cfg, how) then (m, Failed(BadArgs))
    else
      match NameOf(m, id)
      case None => (m, Failed(NotFound))
      case Some(name) =>
        if |data| > MAX_CRED_LEN then (m, Failed(BufferSize))
        else if CheckCurrent(cfg, m[name].cred, current) != Ok then (m, Failed(CheckCurrent(cfg, m[name].cred, current)))
        else if data != [] && ProcessNew(cfg, how, data).Fails? then (m, Failed(ProcessNew(cfg, how, data).rc))
        else
          var cred := if data == [] then None else Some(Cred(how, ProcessNew(cfg, how, data).bytes));
          (m[name := m[name].(cred := cred)], DONE)
  }

  /** A presented credential matches the stored one. */
  predicate Fits(cfg: Config, cred: Option<Cred>, how: Method, data: seq<byte>) {
    && cred.Some? && cred.value.how == how
    && if how == Pin then ProcessPin(cfg, data) == Bytes(cred.value.bytes) else cfg.verify(cred.value.bytes, data)
  }

  ghost function MapSignIn(cfg: Config, m: Users, how: Method, name: CString, data: seq<byte>): (Users, Reply) {
    if !MethodSupported(cfg, how) then (m, Failed(BadArgs))
    else if how == Pin && ProcessPin(cfg, data).Fails? then (m, Failed(ProcessPin(cfg, data).rc))
    else if name in m && !m[name].active && Fits(cfg, m[name].cred, how, data) then
      (m[name := m[name].(active := true)], Reply(Ok, m[name].id, Some(m[name].perms)))
    else (m, DONE)
  }

  ghost function MapSignOut(m: Users, caller: nat, id: nat): (Users, Reply) {
    if caller == NO_USER || id == NO_USER then (m, Failed(BadArgs))
    else if !ValidId(caller) || !ValidId(id) then (m, Failed(NotFound))
    else if caller != id && !IsAdmin(PermsOf(m, caller)) then (m, Failed(Access))
    else
      match NameOf(m, id)
      case None => (m, DONE)
      case Some(name) => (m[name := m[name].(active := false)], DONE)
  }

  ghost function MapGet(m: Users, caller: nat, name: CString): Reply {
    if !ValidId(caller) then Failed(Access)
    else
      var admin := IsAdmin(PermsOf(m, caller));
      if name !in m then Failed(if admin then NotFound else Access)
      else if !admin && m[name].id != caller then Failed(Access)
      else Reply(Ok, m[name].id, Some(m[name].perms))
  }

  ghost function MapStep(cfg: Config, m: Users, req: Request): (Users, Reply) {
    match req
    case Get(caller, name) => (m, MapGet(m, caller, name))
    case Do(call) =>
      match call
      case Add(name, perms, how, data) => MapAdd(cfg, m, name, perms, how, data)
      case Delete(caller, id) => MapDelete(m, caller, id)
      case SetPermissions(caller, id, perms) => MapSetPermissions(m, caller, id, perms)
      case SetCredentials(caller, id, how, current, data) => MapSetCredentials(cfg, m, caller, id, how, current, data)
      case SignIn(how, name, data) => MapSignIn(cfg, m, how, name, data)
      case SignOut(caller, id) => MapSignOut(m, caller, id)
  }

  // --------------------------------------------------------------------- the slot table

  /** The same request on the slots, as the backend operations compute it. */
  function DbStep(cfg: Config, db: Db, req: Request): (Db, Reply) {
    match req
    case Get(caller, name) => (
      match GetUser(db, caller, name)
      case LookupFails(rc) => (db, Failed(rc))
      case Found(id, perms) => (db, Reply(Ok, id, Some(perms))))
    case Do(call) =>
      if call.SignIn? then
        match LoginChange(cfg, db, call.how, call.name, call.data)
        case LoginFails(rc) => (db, Failed(rc))
        case NotLoggedIn => (db, DONE)
        case LoggedIn(id, perms, db') => (db', Reply(Ok, id, Some(perms)))
      else
        match ChangeOf(cfg, db, call)
        case Refused(rc) => (db, Failed(rc))
        case Accepted(db', id) => (db', if call.Add? then Reply(Ok, id, None) else DONE)
  }

  function UserOf(id: nat, a: Account): User {
    User(id, a.perms, a.active, a.cred)
  }

  /** The map the slots stand for. */
  ghost function TableOf(db: Db): (m: Users)
    ensures forall name :: name in m <==> Holder(db, name).Some?
    ensures forall name | name in m ::
      var i := Holder(db, name).value;
      m[name] == UserOf(i + 1, db[i].account)
  {
    map name | name in Names(db) :: (var i := Holder(db, name).value; UserOf(i + 1, db[i].account))
  }

  /** What the map shows under an id is what the slot holds. */
  ghost predicate Shows(m: Users, db: Db, id: nat) {
    ValidId(id) ==>
      && PermsOf(m, id) == PermsAt(db, id)
      && match db[id - 1]
         case Free => NameOf(m, id).None?
         case Used(a) => NameOf(m, id) == Some(a.name) && a.name in m && m[a.name] == UserOf(id, a)
  }

  /** What the map shows under a name is what the scan of the slots finds; free slots are nameless. */
  ghost predicate ShowsName(m: Users, db: Db, name: CString) {
    match Find(db, name)
    case None => name !in m
    case Some(i) =>
      match db[i]
      case Free => name == "" && name !in m
      case Used(a) => name != "" && a.name == name && name in m && m[name] == UserOf(i + 1, a)
  }

  lemma NameOfSlot(db: Db, id: nat)
    requires NamesUnique(db)
    ensures NameOf(TableOf(db), id)
         == if ValidId(id) && db[id - 1].Used? then Some(db[id - 1].account.name) else None
  {
    if ValidId(id) && db[id - 1].Used? {
      HolderIs(db, id - 1);
      assert db[id - 1].account.name in TableOf(db);
    }
  }

  lemma SlotShows(db: Db, id: nat)
    requires NamesUnique(db)
    ensures Shows(TableOf(db), db, id)
  {
    NameOfSlot(db, id);
    if ValidId(id) && db[id - 1].Used? {
      HolderIs(db, id - 1);
    }
  }

  lemma ScanShows(db: Db, name: CString)
    requires NamesUnique(db)
    ensures ShowsName(TableOf(db), db, name)
  {
    if name != "" {
      FindIsLookup(db, name);
    }
  }

  /** The scan for the empty name ends at a free slot, if there is one. */
  lemma EmptyNameScan(db: Db)
    ensures Find(db, "").None? ==> FirstFree(db).None?
  {
    if FirstFree(db).Some? {
      assert NameAt(db, FirstFree(db).value) == "";
    }
  }

  /** The ids the map has users for are those of the used slots. */
  ghost predicate SameIds(m: Users, db: Db) {
    forall id: nat | 1 <= id <= MAX_USERS :: NameOf(m, id).Some? <==> db[id - 1].Used?
  }

  lemma {:induction false} LeastFreeFrom(m: Users, db: Db, i: nat)
    requires SameIds(m, db) && i <= MAX_USERS
    ensures LeastFree(m, i + 1) == match FirstFreeFrom(db, i) case None => None case Some(k) => Some(k + 1)
    decreases MAX_USERS - i
  {
    if i < MAX_USERS {
      assert NameOf(m, i + 1).Some? <==> db[i].Used?;
      LeastFreeFrom(m, db, i + 1);
    }
  }

  lemma LeastFreeIsFirst(db: Db)
    requires NamesUnique(db)
    ensures LeastFree(TableOf(db), 1) == match FirstFree(db) case None => None case Some(k) => Some(k + 1)
  {
    forall id: nat | 1 <= id <= MAX_USERS
      ensures NameOf(TableOf(db), id).Some? <==> db[id - 1].Used?
    {
      NameOfSlot(db, id);
    }
    LeastFreeFrom(TableOf(db), db, 0);
  }

  lemma TableKeeps(db: Db, db': Db, id: nat, name: CString)
    requires ValidId(id) && db' == db[id - 1 := db'[id - 1]]
    requires Holder(db', name) == Holder(db, name) != Some(id - 1)
    ensures name in TableOf(db') <==> name in TableOf(db)
    ensures name in TableOf(db') ==> TableOf(db')[name] == TableOf(db)[name]
  {
  }

  lemma TableRewritten(db: Db, db': Db, id: nat, name': CString)
    requires ValidId(id) && db' == db[id - 1 := db'[id - 1]]
    requires forall name :: Holder(db', name)
                         == if name != name' then Holder(db, name) else if db'[id - 1].Used? then Some(id - 1) else None
    requires forall name | name != name' :: Holder(db, name) != Some(id - 1)
    ensures TableOf(db')
         == if db'[id - 1].Used? then TableOf(db)[name' := UserOf(id, db'[id - 1].account)] else TableOf(db) - {name'}
  {
    var m' := if db'[id - 1].Used? then TableOf(db)[name' := UserOf(id, db'[id - 1].account)] else TableOf(db) - {name'};
    forall name
      ensures name in m' <==> name in TableOf(db')
      ensures name in m' ==> m'[name] == TableOf(db')[name]
    {
      if name != name' { TableKeeps(db, db', id, name); }
    }
  }

  /** An account put into a slot, under its own name, is an update of the map. */
  lemma SlotWrite(db: Db, id: nat, a: Account)
    requires NamesUnique(db) && ValidId(id) && a.name != ""
    requires if db[id - 1].Used? then db[id - 1].account.name == a.name else a.name !in TableOf(db)
    ensures NamesUnique(db[id - 1 := Used(a)])
    ensures TableOf(db[id - 1 := Used(a)]) == TableOf(db)[a.name := UserOf(id, a)]
  {
    var db' := db[id - 1 := Used(a)];
    if db[id - 1].Used? { HolderIs(db, id - 1); }
    HolderAfterUpdate(db, db', id - 1, a);
    TableRewritten(db, db', id, a.name);
  }

  lemma SlotRemoval(db: Db, id: nat)
    requires NamesUnique(db) && ValidId(id) && db[id - 1].Used?
    ensures NamesUnique(db[id - 1 := Free])
    ensures TableOf(db[id - 1 := Free]) == TableOf(db) - {db[id - 1].account.name}
  {
    HolderAfterEmptying(db, id - 1);
    TableRewritten(db, db[id - 1 := Free], id, db[id - 1].account.name);
  }

  // ------------------------------------------------------------- one step refines the other

  /**
   An add that is accepted although its name, once cut to the field, is another user's: the
   duplicate test compares the name as given.
   */
  ghost predicate Collides(cfg: Config, m: Users, req: Request) {
    && req.Do? && req.call.Add?
    && |req.call.name| > MAX_NAME_LEN && StoredName(req.call.name) in m
    && MapStep(cfg, m, req).1.rc == Ok
  }

  ghost predicate Refines(cfg: Config, db: Db, req: Request)
    requires NamesUnique(db)
  {
    var (db', reply) := DbStep(cfg, db, req);
    NamesUnique(db') && MapStep(cfg, TableOf(db), req) == (TableOf(db'), reply)
  }

  /** The add, in the terms of any map that shows what the slots hold. */
  lemma AddShows(cfg: Config, m: Users, db: Db, name: CString, perms: Perms, how: Method, data: seq<byte>)
    requires ShowsName(m, db, name)
    requires LeastFree(m, 1) == match FirstFree(db) case None => None case Some(k) => Some(k + 1)
    ensures var c := AddChange(cfg, db, name, perms, how, data);
      MapAdd(cfg, m, name, perms, how, data)
        == if c.Refused? then (m, Failed(c.rc))
           else (m[StoredName(name) := UserOf(c.id, c.db[c.id - 1].account)], Reply(Ok, c.id, None))
  {
    EmptyNameScan(db);
    if name != "" && Find(db, name).Some? {
      assert name in m;
    }
  }

  lemma AddAnswers(cfg: Config, db: Db, name: CString, perms: Perms, how: Method, data: seq<byte>)
    requires NamesUnique(db)
    ensures var c := AddChange(cfg, db, name, perms, how, data);
      MapAdd(cfg, TableOf(db), name, perms, how, data)
        == if c.Refused? then (TableOf(db), Failed(c.rc))
           else (TableOf(db)[StoredName(name) := UserOf(c.id, c.db[c.id - 1].account)], Reply(Ok, c.id, None))
  {
    ScanShows(db, name);
    LeastFreeIsFirst(db);
    AddShows(cfg, TableOf(db), db, name, perms, how, data);
  }

  lemma AddInserts(cfg: Config, db: Db, name: CString, perms: Perms, how: Method, data: seq<byte>)
    requires NamesUnique(db) && AddChange(cfg, db, name, perms, how, data).Accepted?
    ensures var c := AddChange(cfg, db, name, perms, how, data);
      && (NamesUnique(c.db) <==> |name| <= MAX_NAME_LEN || StoredName(name) !in TableOf(db))
      && (NamesUnique(c.db) ==>
            TableOf(c.db) == TableOf(db)[StoredName(name) := UserOf(c.id, c.db[c.id - 1].account)])
  {
    var c := AddChange(cfg, db, name, perms, how, data);
    NewNameIsNonempty(cfg, db, name, perms, how, data);
    AddKeepsNamesUnique(cfg, db, name, perms, how, data);
    assert StoredName(name) in TableOf(db) <==> StoredName(name) in Accounts(db);
    if StoredName(name) !in TableOf(db) {
      SlotWrite(db, c.id, c.db[c.id - 1].account);
    }
  }

  lemma AddRefines(cfg: Config, db: Db, name: CString, perms: Perms, how: Method, data: seq<byte>)
    requires NamesUnique(db)
    ensures var req := Do(Add(name, perms, how, data));
      Refines(cfg, db, req) <==> !Collides(cfg, TableOf(db), req)
  {
    AddAnswers(cfg, db, name, perms, how, data);
    if AddChange(cfg, db, name, perms, how, data).Accepted? {
      AddInserts(cfg, db, name, perms, how, data);
    }
  }

  lemma DeleteRefines(cfg: Config, db: Db, caller: nat, id: nat)
    requires NamesUnique(db)
    ensures Refines(cfg, db, Do(Delete(caller, id)))
  {
    SlotShows(db, id);
    SlotShows(db, caller);
    if DeleteChange(db, caller, id).Accepted? {
      SlotRemoval(db, id);
    }
  }

  /** Only the slot of `id` is written, and its user keeps the name. */
  predicate WritesSlot(db: Db, id: nat, db': Db) {
    && ValidId(id) && db[id - 1].Used? && db'[id - 1].Used?
    && db'[id - 1].account.name == db[id - 1].account.name
    && db' == db[id - 1 := db'[id - 1]]
  }

  function WithSlot(m: Users, id: nat, db': Db): Users
    requires ValidId(id) && db'[id - 1].Used?
  {
    m[db'[id - 1].account.name := UserOf(id, db'[id - 1].account)]
  }

  lemma SlotWritten(db: Db, id: nat, db': Db)
    requires NamesUnique(db) && WritesSlot(db, id, db')
    ensures NamesUnique(db') && TableOf(db') == WithSlot(TableOf(db), id, db')
  {
    SlotWrite(db, id, db'[id - 1].account);
  }

  lemma SetPermissionsShows(m: Users, db: Db, caller: nat, id: nat, perms: Perms)
    requires Shows(m, db, id) && Shows(m, db, caller)
    ensures var c := SetPermissionsChange(db, caller, id, perms);
      && (c.Accepted? ==> WritesSlot(db, id, c.db))
      && MapSetPermissions(m, caller, id, perms) == if c.Refused? then (m, Failed(c.rc)) else (WithSlot(m, id, c.db), DONE)
  {
  }

  lemma SetPermissionsRefines(cfg: Config, db: Db, caller: nat, id: nat, perms: Perms)
    requires NamesUnique(db)
    ensures Refines(cfg, db, Do(SetPermissions(caller, id, perms)))
  {
    SlotShows(db, id);
    SlotShows(db, caller);
    SetPermissionsShows(TableOf(db), db, caller, id, perms);
    if SetPermissionsChange(db, caller, id, perms).Accepted? {
      SlotWritten(db, id, SetPermissionsChange(db, caller, id, perms).db);
    }
  }

  lemma SetCredentialsShows(cfg: Config, m: Users, db: Db, caller: nat, id: nat, how: Method, current: seq<byte>, data: seq<byte>)
    requires Shows(m, db, id) && Shows(m, db, caller)
    ensures var c := SetCredentialsChange(cfg, db, caller, id, how, current, data);
      && (c.Accepted? ==> WritesSlot(db, id, c.db))
      && MapSetCredentials(cfg, m, caller, id, how, current, data)
           == if c.Refused? then (m, Failed(c.rc)) else (WithSlot(m, id, c.db), DONE)
  {
  }

  lemma SetCredentialsRefines(cfg: Config, db: Db, caller: nat, id: nat, how: Method, current: seq<byte>, data: seq<byte>)
    requires NamesUnique(db)
    ensures Refines(cfg, db, Do(SetCredentials(caller, id, how, current, data)))
  {
    SlotShows(db, id);
    SlotShows(db, caller);
    SetCredentialsShows(cfg, TableOf(db), db, caller, id, how, current, data);
    var c := SetCredentialsChange(cfg, db, caller, id, how, current, data);
    if c.Accepted? {
      SlotWritten(db, id, c.db);
    }
  }

  lemma SignInShows(cfg: Config, m: Users, db: Db, how: Method, name: CString, data: seq<byte>)
    requires ShowsName(m, db, name)
    ensures var l := LoginChange(cfg, db, how, name, data);
      && (l.LoggedIn? ==> WritesSlot(db, l.id, l.db))
      && MapSignIn(cfg, m, how, name, data)
           == if l.LoginFails? then (m, Failed(l.rc)) else if l.NotLoggedIn? then (m, DONE)
              else (WithSlot(m, l.id, l.db), Reply(Ok, l.id, Some(l.perms)))
  {
  }

  lemma SignInRefines(cfg: Config, db: Db, how: Method, name: CString, data: seq<byte>)
    requires NamesUnique(db)
    ensures Refines(cfg, db, Do(SignIn(how, name, data)))
  {
    ScanShows(db, name);
    SignInShows(cfg, TableOf(db), db, how, name, data);
    var l := LoginChange(cfg, db, how, name, data);
    if l.LoggedIn? {
      SlotWritten(db, l.id, l.db);
    }
  }

  lemma SignOutShows(m: Users, db: Db, caller: nat, id: nat)
    requires Shows(m, db, id) && Shows(m, db, caller)
    ensures var c := LogoutChange(db, caller, id);
      && (c.Accepted? ==> ValidId(id) && if db[id - 1].Free? then c.db == db else WritesSlot(db, id, c.db))
      && MapSignOut(m, caller, id)
           == if c.Refused? then (m, Failed(c.rc)) else if db[id - 1].Free? then (m, DONE) else (WithSlot(m, id, c.db), DONE)
  {
  }

  lemma SignOutRefines(cfg: Config, db: Db, caller: nat, id: nat)
    requires NamesUnique(db)
    ensures Refines(cfg, db, Do(SignOut(caller, id)))
  {
    SlotShows(db, id);
    SlotShows(db, caller);
    SignOutShows(TableOf(db), db, caller, id);
    if LogoutChange(db, caller, id).Accepted? && db[id - 1].Used? {
      SlotWritten(db, id, LogoutChange(db, caller, id).db);
    }
  }

  lemma GetShows(m: Users, db: Db, caller: nat, name: CString)
    requires ShowsName(m, db, name) && Shows(m, db, caller)
    ensures var found := GetUser(db, caller, name);
      MapGet(m, caller, name) == if found.LookupFails? then Failed(found.rc) else Reply(Ok, found.id, Some(found.perms))
  {
  }

  lemma GetRefines(cfg: Config, db: Db, caller: nat, name: CString)
    requires NamesUnique(db)
    ensures Refines(cfg, db, Get(caller, name))
  {
    ScanShows(db, name);
    SlotShows(db, caller);
    GetShows(TableOf(db), db, caller, name);
  }

  /**
   Every request, accepted or refused, gets the map's reply and leaves the slots standing for
   the map's next state, exactly unless it is an add whose cut name collides.
   */
  lemma StepRefines(cfg: Config, db: Db, req: Request)
    requires NamesUnique(db)
    ensures Refines(cfg, db, req) <==> !Collides(cfg, TableOf(db), req)
  {
    match req {
      case Get(caller, name) => GetRefines(cfg, db, caller, name);
      case Do(call) =>
        match call {
          case Add(name, perms, how, data) => AddRefines(cfg, db, name, perms, how, data);
          case Delete(caller, id) => DeleteRefines(cfg, db, caller, id);
          case SetPermissions(caller, id, perms) => SetPermissionsRefines(cfg, db, caller, id, perms);
          case SetCredentials(caller, id, how, current, data) => SetCredentialsRefines(cfg, db, caller, id, how, current, data);
          case SignIn(how, name, data) => SignInRefines(cfg, db, how, name, data);
          case SignOut(caller, id) => SignOutRefines(cfg, db, caller, id);
        }
    }
  }
}
