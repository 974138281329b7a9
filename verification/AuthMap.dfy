/**
 The slot table as a plain map from user name to account: every backend operation is one
 insertion, removal or update of that map.
 */
module AuthMap {
  import opened Codes
  import opened Permissions
  import opened AuthDb

  /** No two users share a name, and no user is nameless. */
  predicate NamesUnique(db: Db) {
    && (forall i | 0 <= i < MAX_USERS && db[i].Used? :: db[i].account.name != "")
    && (forall i, j | 0 <= i < j < MAX_USERS && db[i].Used? && db[j].Used? :: db[i].account.name != db[j].account.name)
  }

  /** The map the table stands for. */
  ghost function Accounts(db: Db): (m: map<CString, Account>)
    requires NamesUnique(db)
    ensures forall name :: name in m <==> Holder(db, name).Some?
    ensures forall name | name in m :: m[name] == db[Holder(db, name).value].account
  {
    map name | name in Names(db) :: db[Holder(db, name).value].account
  }

  ghost function Names(db: Db): (names: set<CString>)
    ensures forall name :: name in names <==> Holder(db, name).Some?
  {
    set i | 0 <= i < MAX_USERS && db[i].Used? :: db[i].account.name
  }

  /** The slot of the user of this name. */
  ghost function Holder(db: Db, name: CString): (r: Option<nat>)
    ensures r.Some? ==> r.value < MAX_USERS && db[r.value].Used? && db[r.value].account.name == name
    ensures r.None? ==> forall i | 0 <= i < MAX_USERS && db[i].Used? :: db[i].account.name != name
  {
    if exists i | 0 <= i < MAX_USERS :: db[i].Used? && db[i].account.name == name then
      var i :| 0 <= i < MAX_USERS && db[i].Used? && db[i].account.name == name;
      Some(i)
    else None
  }

  lemma HolderIs(db: Db, i: nat)
    requires NamesUnique(db) && i < MAX_USERS && db[i].Used?
    ensures Holder(db, db[i].account.name) == Some(i)
  {
  }

  /** The scan by name is the lookup in the map. */
  lemma FindIsLookup(db: Db, name: CString)
    requires NamesUnique(db) && name != ""
    ensures Find(db, name) == Holder(db, name)
    ensures Find(db, name).Some? <==> name in Accounts(db)
    ensures Find(db, name).Some? ==> db[Find(db, name).value] == Used(Accounts(db)[name])
  {
    if Holder(db, name).Some? {
      var i := Holder(db, name).value;
      assert NameAt(db, i) == name;
      assert Find(db, name).Some?;
    }
  }

  /** Putting an account into a slot changes who holds its name, and nobody else's. */
  lemma HolderAfterUpdate(db: Db, db': Db, i: nat, account: Account)
    requires NamesUnique(db) && i < MAX_USERS && db' == db[i := Used(account)]
    requires account.name != "" && (Holder(db, account.name).None? || Holder(db, account.name) == Some(i))
    requires db[i].Used? ==> db[i].account.name == account.name
    ensures NamesUnique(db')
    ensures forall name :: Holder(db', name) == if name == account.name then Some(i) else Holder(db, name)
  {
    forall k | 0 <= k < MAX_USERS && k != i && db[k].Used?
      ensures db[k].account.name != account.name
    {
      HolderIs(db, k);
    }
    HolderIs(db', i);
    forall name | name != account.name
      ensures Holder(db', name) == Holder(db, name)
    {
      if Holder(db, name).Some? {
        HolderIs(db', Holder(db, name).value);
      }
    }
  }

  /** An account put into a slot is an update of the map, when its name is its own. */
  lemma SlotUpdateIsMapUpdate(db: Db, db': Db, i: nat, account: Account)
    requires NamesUnique(db) && i < MAX_USERS
    requires db' == db[i := Used(account)]
    requires account.name != "" && (account.name !in Accounts(db) || Holder(db, account.name) == Some(i))
    requires db[i].Used? ==> db[i].account.name == account.name
    ensures NamesUnique(db')
    ensures Accounts(db') == Accounts(db)[account.name := account]
  {
    HolderAfterUpdate(db, db', i, account);
    var m, m' := Accounts(db)[account.name := account], Accounts(db');
    forall name
      ensures name in m <==> name in m'
      ensures name in m ==> m[name] == m'[name]
    {
      assert Holder(db', name) == if name == account.name then Some(i) else Holder(db, name);
    }
  }

  lemma HolderAfterEmptying(db: Db, i: nat)
    requires NamesUnique(db) && i < MAX_USERS && db[i].Used?
    ensures NamesUnique(db[i := Free])
    ensures forall name :: Holder(db[i := Free], name) == if name == db[i].account.name then None else Holder(db, name)
  {
    var db' := db[i := Free];
    HolderIs(db, i);
    forall name
      ensures Holder(db', name) == if name == db[i].account.name then None else Holder(db, name)
    {
      if name != db[i].account.name && Holder(db, name).Some? {
        HolderIs(db', Holder(db, name).value);
      }
    }
  }

  lemma SlotEmptyingIsMapRemoval(db: Db, i: nat)
    requires NamesUnique(db) && i < MAX_USERS && db[i].Used?
    ensures NamesUnique(db[i := Free])
    ensures Accounts(db[i := Free]) == Accounts(db) - {db[i].account.name}
  {
    HolderAfterEmptying(db, i);
    var m, m' := Accounts(db) - {db[i].account.name}, Accounts(db[i := Free]);
    forall name
      ensures name in m <==> name in m'
      ensures name in m ==> m[name] == m'[name]
    {
      assert Holder(db[i := Free], name) == if name == db[i].account.name then None else Holder(db, name);
    }
  }

  /**
   Adding a user inserts its name as stored, when no user is stored under that name; for a
   name that fits the field, the call itself has made sure of it.
   */
  lemma AddIsInsert(cfg: Config, db: Db, name: CString, perms: Perms, how: Method, data: seq<byte>)
    requires NamesUnique(db)
    requires AddChange(cfg, db, name, perms, how, data).Accepted?
    ensures var c := AddChange(cfg, db, name, perms, how, data);
      && c.db[c.id - 1].account.perms == Clamp(perms) && !c.db[c.id - 1].account.active
      && c.db[c.id - 1].account.cred == (if data == [] then None else Some(Cred(how, ProcessNew(cfg, how, data).bytes)))
      && (StoredName(name) !in Accounts(db) ==>
            NamesUnique(c.db) && Accounts(c.db) == Accounts(db)[StoredName(name) := c.db[c.id - 1].account])
      && (|name| <= MAX_NAME_LEN ==> StoredName(name) == name && name !in Accounts(db))
  {
    var c := AddChange(cfg, db, name, perms, how, data);
    NewNameIsNonempty(cfg, db, name, perms, how, data);
    if StoredName(name) !in Accounts(db) {
      SlotUpdateIsMapUpdate(db, c.db, c.id - 1, c.db[c.id - 1].account);
    }
    if |name| <= MAX_NAME_LEN {
      FindIsLookup(db, name);
    }
  }

  lemma NewNameIsNonempty(cfg: Config, db: Db, name: CString, perms: Perms, how: Method, data: seq<byte>)
    requires AddChange(cfg, db, name, perms, how, data).Accepted?
    ensures name != "" && Find(db, name).None?
    ensures var c := AddChange(cfg, db, name, perms, how, data);
      && c.db == db[c.id - 1 := c.db[c.id - 1]]
      && c.db[c.id - 1].account.name == StoredName(name)
      && StoredName(name) != ""
  {
    var i := FirstFree(db).value;
    assert NameAt(db, i) == "";
  }

  /**
   Names stay unique exactly when the name as stored is new. The duplicate test compares
   the name as given, so the two differ for names longer than the field.
   */
  lemma AddKeepsNamesUnique(cfg: Config, db: Db, name: CString, perms: Perms, how: Method, data: seq<byte>)
    requires NamesUnique(db)
    requires AddChange(cfg, db, name, perms, how, data).Accepted?
    ensures NamesUnique(AddChange(cfg, db, name, perms, how, data).db) <==> StoredName(name) !in Accounts(db)
    ensures |name| <= MAX_NAME_LEN ==> StoredName(name) !in Accounts(db)
  {
    var c := AddChange(cfg, db, name, perms, how, data);
    NewNameIsNonempty(cfg, db, name, perms, how, data);
    var account := c.db[c.id - 1].account;
    if StoredName(name) !in Accounts(db) {
      SlotUpdateIsMapUpdate(db, c.db, c.id - 1, account);
    } else {
      var k := Holder(db, StoredName(name)).value;
      assert k != c.id - 1;
      assert c.db[k] == db[k];
    }
    if |name| <= MAX_NAME_LEN {
      FindIsLookup(db, name);
    }
  }

  /** Two long names that agree in their first 31 characters become two users of one name. */
  lemma LongNamesCollide(cfg: Config, name: CString, name': CString, perms: Perms)
    requires |name| > MAX_NAME_LEN && |name'| > MAX_NAME_LEN && name[..MAX_NAME_LEN] == name'[..MAX_NAME_LEN]
    ensures var first := AddChange(cfg, EMPTY_DB, name, perms, Pin, []);
      && first.Accepted?
      && AddChange(cfg, first.db, name', perms, Pin, []).Accepted?
      && !NamesUnique(AddChange(cfg, first.db, name', perms, Pin, []).db)
  {
    assert Find(EMPTY_DB, name) == None;
    assert FirstFree(EMPTY_DB) == Some(0);
    var db := EMPTY_DB[0 := Used(Account(StoredName(name), Clamp(perms), false, None))];
    assert AddChange(cfg, EMPTY_DB, name, perms, Pin, []) == Accepted(db, 1);
    assert NameAt(db, 0) != name' by {
      assert |NameAt(db, 0)| == MAX_NAME_LEN;
    }
    assert FirstFreeFrom(db, 1) == Some(1);
    assert FirstFree(db) == Some(1);
    var db' := AddChange(cfg, db, name', perms, Pin, []).db;
    assert db'[0].account.name == db'[1].account.name;
  }

  lemma DeleteIsRemove(db: Db, caller: nat, id: nat)
    requires NamesUnique(db)
    requires DeleteChange(db, caller, id).Accepted?
    ensures NamesUnique(DeleteChange(db, caller, id).db)
    ensures db[id - 1].Used?
    ensures Accounts(DeleteChange(db, caller, id).db) == Accounts(db) - {db[id - 1].account.name}
  {
    SlotEmptyingIsMapRemoval(db, id - 1);
  }

  lemma SetPermissionsIsUpdate(db: Db, caller: nat, id: nat, perms: Perms)
    requires NamesUnique(db)
    requires SetPermissionsChange(db, caller, id, perms).Accepted?
    ensures db[id - 1].Used?
    ensures var db' := SetPermissionsChange(db, caller, id, perms).db;
      var name := db[id - 1].account.name;
      && NamesUnique(db') && name in Accounts(db)
      && Accounts(db') == Accounts(db)[name := Accounts(db)[name].(perms := Clamp(perms))]
  {
    HolderIs(db, id - 1);
    var db' := SetPermissionsChange(db, caller, id, perms).db;
    SlotUpdateIsMapUpdate(db, db', id - 1, db'[id - 1].account);
  }

  /** What replaces the credential is the processed new one, or nothing. */
  lemma SetCredentialsIsUpdate(cfg: Config, db: Db, caller: nat, id: nat, how: Method, current: seq<byte>, data: seq<byte>)
    requires NamesUnique(db)
    requires SetCredentialsChange(cfg, db, caller, id, how, current, data).Accepted?
    ensures db[id - 1].Used?
    ensures var db' := SetCredentialsChange(cfg, db, caller, id, how, current, data).db;
      var name := db[id - 1].account.name;
      && NamesUnique(db') && name in Accounts(db)
      && (data != [] ==> ProcessNew(cfg, how, data).Bytes?)
      && Accounts(db') == Accounts(db)[name := Accounts(db)[name].(cred :=
           if data == [] then None else Some(Cred(how, ProcessNew(cfg, how, data).bytes)))]
  {
    HolderIs(db, id - 1);
    var db' := SetCredentialsChange(cfg, db, caller, id, how, current, data).db;
    SlotUpdateIsMapUpdate(db, db', id - 1, db'[id - 1].account);
  }

  /**
   A PIN opens a session exactly when the user exists, is not signed in, and stores the
   processed PIN; the map then changes in that user's active flag only.
   */
  lemma PinOpensExactly(cfg: Config, db: Db, name: CString, pin: seq<byte>)
    requires NamesUnique(db) && name != "" && ProcessPin(cfg, pin).Bytes?
    ensures var l := LoginChange(cfg, db, Pin, name, pin);
      && (l.LoggedIn? <==>
            && name in Accounts(db) && !Accounts(db)[name].active
            && Accounts(db)[name].cred == Some(Cred(Pin, ProcessPin(cfg, pin).bytes)))
      && (l.LoggedIn? ==>
            && l.perms == Accounts(db)[name].perms
            && NamesUnique(l.db)
            && Accounts(l.db) == Accounts(db)[name := Accounts(db)[name].(active := true)])
  {
    FindIsLookup(db, name);
    var l := LoginChange(cfg, db, Pin, name, pin);
    if l.LoggedIn? {
      SlotUpdateIsMapUpdate(db, l.db, l.id - 1, l.db[l.id - 1].account);
    }
  }

  /** Signing out and in again with the same PIN succeeds. */
  lemma SignOutThenIn(cfg: Config, db: Db, name: CString, pin: seq<byte>)
    requires NamesUnique(db) && name != ""
    requires LoginChange(cfg, db, Pin, name, pin).LoggedIn?
    ensures var l := LoginChange(cfg, db, Pin, name, pin);
      var out := LogoutChange(l.db, l.id, l.id);
      && out.Accepted? && out.db == db
      && LoginChange(cfg, l.db, Pin, name, pin) == NotLoggedIn
  {
    FindIsLookup(db, name);
    var l := LoginChange(cfg, db, Pin, name, pin);
    PinOpensExactly(cfg, db, name, pin);
    FindIsLookup(l.db, name);
  }
}
