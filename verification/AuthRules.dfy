/**
 Who may do what to the user database, and what is stored, in elementary terms: each rule
 says of one operation exactly when it is accepted, what it leaves, and the code of a refusal,
 from the slots, the flag bytes and the presented bytes alone.
 */
module AuthRules {
  import opened Codes
  import opened Permissions
  import opened AuthDb
  import opened AuthMap
  import opened AuthTable

  /** The user of this id carries the admin flag, the last of the group bytes. */
  predicate AdminIn(db: Db, id: nat) {
    1 <= id <= 5 && db[id - 1].Used? && db[id - 1].account.perms.groups[14] != 0
  }

  predicate Present(db: Db, id: nat) {
    1 <= id <= 5 && db[id - 1].Used?
  }

  /** A PIN always, a certificate when built with crypto and the certificate manager. */
  predicate Offered(cfg: Config, how: Method) {
    how == Pin || (how == Certificate && cfg.crypto && cfg.certManager)
  }

  predicate Named(db: Db, name: CString) {
    exists i | 0 <= i < 5 && db[i].Used? :: db[i].account.name == name
  }

  predicate Full(db: Db) {
    forall i | 0 <= i < 5 :: db[i].Used?
  }

  /** These bytes are what is kept of a credential: the hash of a PIN where there is crypto, else the data. */
  predicate Keeps(cfg: Config, how: Method, data: seq<byte>, kept: seq<byte>) {
    if how == Pin && cfg.crypto then cfg.sha(data) == Some(kept) else kept == data && |data| <= 2048
  }

  predicate Keepable(cfg: Config, how: Method, data: seq<byte>) {
    if how == Pin && cfg.crypto then cfg.sha(data).Some? else |data| <= 2048
  }

  /** The credential a call with this data leaves: none for empty data. */
  predicate Leaves(cfg: Config, how: Method, data: seq<byte>, cred: Option<Cred>) {
    if data == [] then cred == None else cred.Some? && cred.value.how == how && Keeps(cfg, how, data, cred.value.bytes)
  }

  /** The presented bytes prove knowledge of the credential in place. */
  predicate Proves(cfg: Config, cred: Option<Cred>, current: seq<byte>) {
    match cred
    case None => current == []
    case Some(c) => current != [] && if c.how == Pin && cfg.crypto then cfg.sha(current) == Some(c.bytes) else current == c.bytes
  }

  /** Two databases differ in the slot of this id at most. */
  predicate SameBut(db: Db, db': Db, id: nat) {
    forall i | 0 <= i < 5 && i != id - 1 :: db'[i] == db[i]
  }

  // ------------------------------------------------------------------------ adding

  lemma FreshName(db: Db, name: CString)
    requires NamesUnique(db)
    ensures Find(db, name).Some? <==> Named(db, name) || (name == "" && !Full(db))
    ensures FirstFree(db).None? <==> Full(db)
  {
    if name == "" {
      if FirstFree(db).Some? {
        assert NameAt(db, FirstFree(db).value) == "";
      }
    } else {
      FindIsLookup(db, name);
    }
  }

  lemma AddRule(cfg: Config, db: Db, name: CString, perms: Perms, how: Method, data: seq<byte>)
    requires NamesUnique(db)
    ensures var c := AddChange(cfg, db, name, perms, how, data);
      && (c.Accepted? <==>
            && name != "" && !Named(db, name) && !Full(db)
            && (data != [] ==> Offered(cfg, how) && Keepable(cfg, how, data)))
      && (c.Refused? ==>
            c.rc == if (data != [] && !Offered(cfg, how)) || Named(db, name) || (name == "" && !Full(db)) then BadArgs
                    else if Full(db) then BufferSize
                    else if how == Pin && cfg.crypto then Aborted else BufferSize)
  {
    FreshName(db, name);
  }

  /** The lowest free id gets the user, as given but for the cut of the name and of the key list. */
  lemma AddStores(cfg: Config, db: Db, name: CString, perms: Perms, how: Method, data: seq<byte>)
    requires AddChange(cfg, db, name, perms, how, data).Accepted?
    ensures var c := AddChange(cfg, db, name, perms, how, data);
      && 1 <= c.id <= 5 && db[c.id - 1].Free? && (forall i | 0 <= i < c.id - 1 :: db[i].Used?)
      && SameBut(db, c.db, c.id) && c.db[c.id - 1].Used?
      && var a := c.db[c.id - 1].account;
      && a.name == (if |name| <= 31 then name else name[..31])
      && a.perms.groups == perms.groups && a.perms.actions == perms.actions && KeyList(a.perms) == KeyList(perms)
      && !a.active && Leaves(cfg, how, data, a.cred)
  {
  }

  // ---------------------------------------------------------------------- deleting

  lemma DeleteRule(db: Db, caller: nat, id: nat)
    ensures var c := DeleteChange(db, caller, id);
      && (c.Accepted? <==> AdminIn(db, caller) && Present(db, id))
      && (c.Accepted? ==> SameBut(db, c.db, id) && c.db[id - 1].Free?)
      && (c.Refused? ==>
            c.rc == if !(1 <= id <= 5) then NotFound
                    else if !(1 <= caller <= 5) then BadArgs
                    else if !AdminIn(db, caller) then Access else NotFound)
  {
  }

  // ------------------------------------------------------------------- permissions

  lemma SetPermissionsRule(db: Db, caller: nat, id: nat, perms: Perms)
    ensures var c := SetPermissionsChange(db, caller, id, perms);
      && (c.Accepted? <==> AdminIn(db, caller) && Present(db, id))
      && (c.Accepted? ==>
            && SameBut(db, c.db, id) && c.db[id - 1].Used?
            && var was, now := db[id - 1].account, c.db[id - 1].account;
            && now.name == was.name && now.active == was.active && now.cred == was.cred
            && now.perms.groups == perms.groups && now.perms.actions == perms.actions && KeyList(now.perms) == KeyList(perms))
      && (c.Refused? ==>
            c.rc == if 1 <= id <= 5 && 1 <= caller <= 5 && !AdminIn(db, caller) then Access else NotFound)
  {
  }

  // ------------------------------------------------------------------- credentials

  /**
   Oneself or an admin, and only against the credential in place; what is kept afterwards is the
   new one. A wrong proof is refused, whoever asks.
   */
  lemma SetCredentialsRule(cfg: Config, db: Db, caller: nat, id: nat, how: Method, current: seq<byte>, data: seq<byte>)
    ensures var c := SetCredentialsChange(cfg, db, caller, id, how, current, data);
      && (c.Accepted? <==>
            && 1 <= caller <= 5 && Present(db, id) && (caller == id || AdminIn(db, caller))
            && Offered(cfg, how) && |data| <= 2048
            && Proves(cfg, db[id - 1].account.cred, current)
            && (data != [] ==> Keepable(cfg, how, data)))
      && (c.Accepted? ==>
            && SameBut(db, c.db, id) && c.db[id - 1].Used?
            && var was, now := db[id - 1].account, c.db[id - 1].account;
            && now.name == was.name && now.active == was.active && now.perms == was.perms
            && Leaves(cfg, how, data, now.cred))
  {
  }

  /** The code of each refusal, in the order of the checks. */
  lemma SetCredentialsRefusals(cfg: Config, db: Db, caller: nat, id: nat, how: Method, current: seq<byte>, data: seq<byte>)
    requires SetCredentialsChange(cfg, db, caller, id, how, current, data).Refused?
    ensures SetCredentialsChange(cfg, db, caller, id, how, current, data).rc ==
      if !(1 <= id <= 5) || !(1 <= caller <= 5) then BadArgs
      else if caller != id && !AdminIn(db, caller) then Access
      else if !Offered(cfg, how) then BadArgs
      else if !Present(db, id) then NotFound
      else if |data| > 2048 then BufferSize
      else if !Proves(cfg, db[id - 1].account.cred, current) then
        if db[id - 1].account.cred.None? then BadArgs
        else if current != [] && db[id - 1].account.cred.value.how == Pin && cfg.crypto && cfg.sha(current).None? then Aborted
        else Access
      else Aborted
  {
  }

  /** The same of the map: who may, and against which proof. */
  lemma MapSetCredentialsRule(cfg: Config, m: Users, caller: nat, id: nat, how: Method, current: seq<byte>, data: seq<byte>)
    requires MapSetCredentials(cfg, m, caller, id, how, current, data).1.rc == Ok
    ensures exists name ::
      && name in m && m[name].id == id && Proves(cfg, m[name].cred, current)
      && (caller == id || exists who :: who in m && m[who].id == caller && m[who].perms.groups[14] != 0)
      && MapSetCredentials(cfg, m, caller, id, how, current, data).0.Keys == m.Keys
      && Leaves(cfg, how, data, MapSetCredentials(cfg, m, caller, id, how, current, data).0[name].cred)
  {
    var name := NameOf(m, id).value;
    assert name in m && m[name].id == id && Proves(cfg, m[name].cred, current);
    if caller != id {
      var who := NameOf(m, caller).value;
      assert who in m && m[who].id == caller && m[who].perms.groups[14] != 0;
    }
    assert MapSetCredentials(cfg, m, caller, id, how, current, data).0.Keys == m.Keys;
  }

  lemma MapSetCredentialsAccepts(cfg: Config, m: Users, name: CString, caller: nat, id: nat, how: Method,
                                 current: seq<byte>, data: seq<byte>)
    requires forall a, b | a in m && b in m && m[a].id == m[b].id :: a == b
    requires name in m && m[name].id == id && 1 <= id <= 5 && 1 <= caller <= 5
    requires caller == id || exists who :: who in m && m[who].id == caller && m[who].perms.groups[14] != 0
    requires Offered(cfg, how) && |data| <= 2048 && Proves(cfg, m[name].cred, current)
    requires data != [] ==> Keepable(cfg, how, data)
    ensures var (m', reply) := MapSetCredentials(cfg, m, caller, id, how, current, data);
      && reply.rc == Ok && m'.Keys == m.Keys && m'[name] == m[name].(cred := m'[name].cred) && Leaves(cfg, how, data, m'[name].cred)
      && forall other | other in m && other != name :: m'[other] == m[other]
  {
    assert NameOf(m, id) == Some(name);
    if caller != id {
      var who :| who in m && m[who].id == caller && m[who].perms.groups[14] != 0;
      assert NameOf(m, caller) == Some(who);
    }
  }

  // ---------------------------------------------------------------------- sessions

  /** The presented data opens this credential. */
  predicate Opens(cfg: Config, cred: Option<Cred>, how: Method, data: seq<byte>) {
    && cred.Some? && cred.value.how == how
    && if how == Pin then Keeps(cfg, Pin, data, cred.value.bytes) else cfg.verify(cred.value.bytes, data)
  }

  lemma LoginRule(cfg: Config, db: Db, how: Method, name: CString, data: seq<byte>)
    requires NamesUnique(db)
    ensures var l := LoginChange(cfg, db, how, name, data);
      && (l.LoginFails? <==> !Offered(cfg, how) || (how == Pin && !Keepable(cfg, Pin, data)))
      && (l.LoginFails? ==> l.rc == if !Offered(cfg, how) then BadArgs else if cfg.crypto then Aborted else BufferSize)
      && (l.LoggedIn? ==>
            && 1 <= l.id <= 5 && db[l.id - 1].Used? && l.perms == db[l.id - 1].account.perms
            && db[l.id - 1].account.name == name && !db[l.id - 1].account.active
            && Opens(cfg, db[l.id - 1].account.cred, how, data)
            && SameBut(db, l.db, l.id) && l.db[l.id - 1] == Used(db[l.id - 1].account.(active := true)))
      && (l.NotLoggedIn? ==>
            forall i | 0 <= i < 5 && db[i].Used? && db[i].account.name == name ::
              db[i].account.active || !Opens(cfg, db[i].account.cred, how, data))
  {
    if name != "" {
      FindIsLookup(db, name);
      forall i | 0 <= i < 5 && db[i].Used? && db[i].account.name == name
        ensures Find(db, name) == Some(i)
      {
        HolderIs(db, i);
      }
    }
  }

  lemma LogoutRule(db: Db, caller: nat, id: nat)
    ensures var c := LogoutChange(db, caller, id);
      && (c.Accepted? <==> 1 <= caller <= 5 && 1 <= id <= 5 && (caller == id || AdminIn(db, caller)))
      && (c.Accepted? ==>
            && SameBut(db, c.db, id)
            && c.db[id - 1] == if db[id - 1].Used? then Used(db[id - 1].account.(active := false)) else Free)
      && (c.Refused? ==>
            c.rc == if caller == 0 || id == 0 then BadArgs else if caller > 5 || id > 5 then NotFound else Access)
  {
  }

  /** An admin sees everybody; anybody else sees only themselves, and cannot tell who exists. */
  lemma GetRule(db: Db, caller: nat, name: CString)
    requires NamesUnique(db)
    ensures var g := GetUser(db, caller, name);
      && (g.Found? ==>
            && 1 <= g.id <= 5 && db[g.id - 1].Used? && db[g.id - 1].account.name == name
            && g.perms == db[g.id - 1].account.perms && (AdminIn(db, caller) || g.id == caller))
      && (g.LookupFails? ==> g.rc == if AdminIn(db, caller) then NotFound else Access)
      && (g.LookupFails? ==>
            !(1 <= caller <= 5) || forall i | 0 <= i < 5 && db[i].Used? && db[i].account.name == name ::
              !AdminIn(db, caller) && caller != i + 1)
  {
    if name != "" {
      FindIsLookup(db, name);
      forall i | 0 <= i < 5 && db[i].Used? && db[i].account.name == name
        ensures Find(db, name) == Some(i)
      {
        HolderIs(db, i);
      }
    }
  }
}
