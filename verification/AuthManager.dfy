/**
 The authentication manager (src/wh_auth.c): one context per connection, holding the
 session of at most one user, over a backend shared by all of them.
 */
module AuthManager {
  import opened Codes
  import opened Permissions
  import opened AuthDb
  import opened AuthStore
  import opened AuthBase

  const GROUP_COMM := 0x0100
  const GROUP_AUTH := 0x0D00
  const ACTION_LOGIN := 0
  const ACTION_LOGOUT := 1

  datatype Session = Session(userId: nat, perms: Perms, active: bool)

  const NO_SESSION := Session(NO_USER, NO_PERMS, false)

  /** The group and action gate that every request passes. */
  predicate MayRequest(s: Session, group: nat, action: nat) {
    if s.userId == NO_USER then group == GROUP_COMM || (group == GROUP_AUTH && action == ACTION_LOGIN)
    else (group == GROUP_AUTH && action == ACTION_LOGOUT) || Permits(s.perms, (group / 256) % 256, action)
  }

  predicate MayUseKey(s: Session, key: nat) {
    s.userId != NO_USER && key in KeyList(s.perms)
  }

  /** What a session may hand to a user it creates. */
  predicate MayAdd(s: Session, perms: Perms, data: seq<byte>) {
    IsAdmin(s.perms) || (Within(perms, s.perms) && data != [])
  }

  datatype Op =
    | LogIn(how: Method, name: CString, data: seq<byte>)
    | LogOut(id: nat)
    | AddUser(name: CString, perms: Perms, how: Method, data: seq<byte>)
    | DeleteUser(id: nat)
    | SetPerms(id: nat, perms: Perms)
    | SetCreds(id: nat, how: Method, current: seq<byte>, data: seq<byte>)

  /** The backend call behind an operation. */
  function CallOf(s: Session, op: Op): Call {
    match op
    case LogIn(how, name, data) => SignIn(how, name, data)
    case LogOut(id) => SignOut(s.userId, id)
    case AddUser(name, perms, how, data) => Add(name, perms, how, data)
    case DeleteUser(id) => Delete(s.userId, id)
    case SetPerms(id, perms) => SetPermissions(s.userId, id, perms)
    case SetCreds(id, how, current, data) => SetCredentials(s.userId, id, how, current, data)
  }

  predicate Reaches(s: Session, op: Op) {
    match op
    case LogIn(_, _, _) => s.userId == NO_USER
    case AddUser(_, perms, _, data) => MayAdd(s, perms, data)
    case _ => true
  }

  /** Database and session after an operation; `stored` says that storage did its part. */
  function SessionNext(cfg: Config, db: Db, s: Session, op: Op, stored: bool): (Db, Session) {
    if !Reaches(s, op) || !stored then (db, s)
    else
      match ChangeOf(cfg, db, CallOf(s, op))
      case Refused(_) => (db, s)
      case Accepted(db', id) =>
        var s' := match op
          case LogIn(_, _, _) => if id == NO_USER then s else Session(id, PermsAt(db', id), true)
          case LogOut(id) => if id == s.userId then NO_SESSION else s
          case SetPerms(id, perms) => if id == s.userId && s.userId != NO_USER then s.(perms := perms) else s
          case _ => s;
        (db', s')
  }

  /** SessionNext, operation by operation. */
  lemma AddMoves(cfg: Config, db: Db, s: Session, name: CString, perms: Perms, how: Method, data: seq<byte>, stored: bool)
    ensures var c := AddChange(cfg, db, name, perms, how, data);
      SessionNext(cfg, db, s, AddUser(name, perms, how, data), stored)
        == (if MayAdd(s, perms, data) && stored && c.Accepted? then c.db else db, s)
    ensures var c := AddChange(cfg, db, name, perms, how, data);
      if c.Refused? then c.rc != Ok
      else ValidId(c.id) && c.db[c.id - 1].Used? && c.db[c.id - 1].account.perms == Clamp(perms)
  {
  }

  lemma DeleteMoves(cfg: Config, db: Db, s: Session, id: nat, stored: bool)
    ensures var c := DeleteChange(db, s.userId, id);
      SessionNext(cfg, db, s, DeleteUser(id), stored) == (if stored && c.Accepted? then c.db else db, s)
    ensures DeleteChange(db, s.userId, id).Refused? ==> DeleteChange(db, s.userId, id).rc != Ok
  {
  }

  lemma SetPermsMoves(cfg: Config, db: Db, s: Session, id: nat, perms: Perms, stored: bool)
    ensures var c := SetPermissionsChange(db, s.userId, id, perms);
      SessionNext(cfg, db, s, SetPerms(id, perms), stored)
        == if stored && c.Accepted? then (c.db, if id == s.userId && s.userId != NO_USER then s.(perms := perms) else s) else (db, s)
    ensures SetPermissionsChange(db, s.userId, id, perms).Refused? ==> SetPermissionsChange(db, s.userId, id, perms).rc != Ok
  {
  }

  lemma SetCredsMoves(cfg: Config, db: Db, s: Session, id: nat, how: Method, current: seq<byte>, data: seq<byte>, stored: bool)
    ensures var c := SetCredentialsChange(cfg, db, s.userId, id, how, current, data);
      SessionNext(cfg, db, s, SetCreds(id, how, current, data), stored) == (if stored && c.Accepted? then c.db else db, s)
    ensures var c := SetCredentialsChange(cfg, db, s.userId, id, how, current, data); c.Refused? ==> c.rc != Ok
  {
  }

  lemma LogInMoves(cfg: Config, db: Db, s: Session, how: Method, name: CString, data: seq<byte>, stored: bool)
    ensures var l := LoginChange(cfg, db, how, name, data);
      SessionNext(cfg, db, s, LogIn(how, name, data), stored)
        == if s.userId == NO_USER && stored && l.LoggedIn? then (l.db, Session(l.id, l.perms, true)) else (db, s)
    ensures var l := LoginChange(cfg, db, how, name, data); (l.LoginFails? ==> l.rc != Ok) && (l.LoggedIn? ==> ValidId(l.id))
  {
  }

  /** What the backend answers a login is the move; a read that fails moves nothing. */
  lemma LogInEnds(cfg: Config, db: Db, s: Session, how: Method, name: CString, data: seq<byte>, stuck: bool,
                  rc: Rc, loggedIn: bool, id: nat, perms: Perms, db': Db)
    requires s.userId == NO_USER
    requires if stuck then rc != Ok && !loggedIn && db' == db
             else Answers(LoginChange(cfg, db, how, name, data), db, rc, loggedIn, id, perms, db')
    ensures SessionNext(cfg, db, s, LogIn(how, name, data), rc == Ok)
         == (db', if rc == Ok && loggedIn then Session(id, perms, true) else s)
    ensures loggedIn ==> rc == Ok && ValidId(id)
    ensures var l := LoginChange(cfg, db, how, name, data); !stuck ==> rc == if l.LoginFails? then l.rc else Ok
  {
    LogInMoves(cfg, db, s, how, name, data, rc == Ok);
  }

  lemma LogOutMoves(cfg: Config, db: Db, s: Session, id: nat, stored: bool)
    ensures var c := LogoutChange(db, s.userId, id);
      SessionNext(cfg, db, s, LogOut(id), stored)
        == if stored && c.Accepted? then (c.db, if id == s.userId then NO_SESSION else s) else (db, s)
    ensures LogoutChange(db, s.userId, id).Refused? ==> LogoutChange(db, s.userId, id).rc != Ok
  {
  }

  class AuthContext {
    const backend: Backend
    var session: Session

    constructor (backend: Backend)
      ensures this.backend == backend && session == NO_SESSION
    {
      this.backend, session := backend, NO_SESSION;
    }

    /** wh_Auth_CheckRequestAuthorization, without an override callback. */
    method CheckRequestAuthorization(group: nat, action: nat) returns (rc: Rc)
      ensures rc == if MayRequest(session, group, action) then Ok else Access
      ensures session.userId == NO_USER ==>
        (rc == Ok <==> group == 0x0100 || (group == 0x0D00 && action == 0))
      ensures session.userId != NO_USER ==>
        var g := (group / 256) % 256;
        rc == Ok <==> (group == 0x0D00 && action == 1)
                      || (g < GROUPS && session.perms.groups[g] != 0 && action < 256 && HasBit(session.perms, g, action))
    {
      if session.userId == NO_USER {
        if group == GROUP_COMM || (group == GROUP_AUTH && action == ACTION_LOGIN) {
          return Ok;
        }
        return Access;
      }
      var groupIndex := (group / 256) % 256;
      if group == GROUP_AUTH && action == ACTION_LOGOUT {
        return Ok;
      }
      if groupIndex >= GROUPS {
        return Access;
      }
      if session.perms.groups[groupIndex] != 0 {
        if action < ACTIONS_PER_GROUP {
          var word, mask := action / 32, Mask(action % 32);
          if word < ACTION_WORDS && BitSet(session.perms.actions[groupIndex][word], mask) {
            return Ok;
          }
        }
      }
      rc := Access;
    }

    /** wh_Auth_CheckKeyAuthorization, without an override callback. */
    method CheckKeyAuthorization(key: nat) returns (rc: Rc)
      ensures rc == if MayUseKey(session, key) then Ok else Access
      ensures var p := session.perms;
        rc == Ok <==> session.userId != NO_USER && exists i | 0 <= i < p.keyIdCount && i < 2 :: p.keyIds[i] == key
    {
      KeyListIs(session.perms, key);
      if session.userId == NO_USER {
        return Access;
      }
      var i := 0;
      while i < session.perms.keyIdCount && i < MAX_KEY_IDS
        invariant i <= |KeyList(session.perms)|
        invariant forall k | 0 <= k < i :: session.perms.keyIds[k] != key
      {
        if session.perms.keyIds[i] == key {
          assert KeyList(session.perms)[i] == key;
          return Ok;
        }
        i := i + 1;
      }
      rc := Access;
    }

    /** The group and action loops of wh_Auth_UserAdd. */
    method ActionsWithin(perms: Perms) returns (subset: bool)
      ensures subset <==>
        && (forall g | 0 <= g < GROUPS :: perms.groups[g] != 0 ==> session.perms.groups[g] != 0)
        && (forall g, w | 0 <= g < GROUPS && 0 <= w < ACTION_WORDS ::
              WordWithin(perms.actions[g][w], session.perms.actions[g][w]))
    {
      for g := 0 to GROUPS
        invariant forall h | 0 <= h < g :: perms.groups[h] != 0 ==> session.perms.groups[h] != 0
        invariant forall h, w | 0 <= h < g && 0 <= w < ACTION_WORDS ::
          WordWithin(perms.actions[h][w], session.perms.actions[h][w])
      {
        if perms.groups[g] != 0 && session.perms.groups[g] == 0 {
          return false;
        }
        for w := 0 to ACTION_WORDS
          invariant forall v | 0 <= v < w :: WordWithin(perms.actions[g][v], session.perms.actions[g][v])
        {
          if !WordWithin(perms.actions[g][w], session.perms.actions[g][w]) {
            return false;
          }
        }
      }
      subset := true;
    }

    /** The key loops of wh_Auth_UserAdd. */
    method KeysWithin(perms: Perms) returns (subset: bool)
      ensures subset <==> forall k | k in KeyList(perms) :: k in KeyList(session.perms)
    {
      var wanted, held := KeyList(perms), KeyList(session.perms);
      for k := 0 to |wanted|
        invariant forall j | 0 <= j < k :: wanted[j] in held
      {
        var found := false;
        for c := 0 to |held|
          invariant found <==> exists j | 0 <= j < c :: held[j] == wanted[k]
        {
          if held[c] == wanted[k] {
            found := true;
          }
        }
        if !found {
          assert wanted[k] in KeyList(perms);
          return false;
        }
      }
      subset := true;
    }

    method Subset(perms: Perms) returns (subset: bool)
      ensures subset <==> Within(perms, session.perms)
    {
      subset := !IsAdmin(perms);
      if subset {
        subset := ActionsWithin(perms);
      }
      if subset {
        subset := KeysWithin(perms);
      }
    }

    ghost predicate Valid()
      reads this, backend, backend.nvm, backend.users, backend.ramCred
    {
      backend.Valid()
    }

    /** The database and this session moved as the specification says. */
    twostate predicate Moved(op: Op, stored: bool)
      requires backend.users.Length == MAX_USERS
      reads this, backend, backend.nvm, backend.users, backend.ramCred
    {
      (backend.Db(), session) == SessionNext(backend.cfg, old(backend.Db()), old(session), op, stored)
    }

    /** The login of a context without a session. */
    method OpenSession(how: Method, name: CString, data: seq<byte>) returns (rc: Rc, loggedIn: bool)
      requires Valid() && session.userId == NO_USER
      modifies this`session, backend.users, backend.nvm
      ensures Valid() && Moved(LogIn(how, name, data), rc == Ok)
      ensures loggedIn <==> session.userId != NO_USER
      ensures var l := LoginChange(backend.cfg, old(backend.Db()), how, name, data);
        rc == if Consults(backend.cfg, old(backend.Db()), how, name, data) && old(backend.ReadFault()) != Ok then old(backend.ReadFault())
              else if l.LoginFails? then l.rc
              else Ok
    {
      ghost var db := backend.Db();
      ghost var stuck := Consults(backend.cfg, db, how, name, data) && backend.ReadFault() != Ok;
      var id, perms;
      rc, loggedIn, id, perms := backend.Login(how, name, data);
      LogInEnds(backend.cfg, db, session, how, name, data, stuck, rc, loggedIn, id, perms, backend.Db());
      if rc == Ok && loggedIn {
        session := Session(id, perms, true);
      }
    }

    /** wh_Auth_Login: at most one user per context. */
    method Login(how: Method, name: CString, data: seq<byte>) returns (rc: Rc, loggedIn: bool)
      requires Valid()
      modifies this`session, backend.users, backend.nvm
      ensures Valid() && Moved(LogIn(how, name, data), rc == Ok)
      ensures loggedIn <==> old(session).userId == NO_USER && session.userId != NO_USER
      ensures old(session).userId != NO_USER ==> rc == Ok && !loggedIn
      ensures old(session).userId == NO_USER ==>
        var l := LoginChange(backend.cfg, old(backend.Db()), how, name, data);
        rc == if Consults(backend.cfg, old(backend.Db()), how, name, data) && old(backend.ReadFault()) != Ok then old(backend.ReadFault())
              else if l.LoginFails? then l.rc
              else Ok
    {
      loggedIn := false;
      if session.userId != NO_USER {
        return Ok, false;
      }
      rc, loggedIn := OpenSession(how, name, data);
    }

    /** wh_Auth_Logout */
    method Logout(id: nat) returns (rc: Rc)
      requires Valid()
      modifies this`session, backend.users
      ensures Valid() && Moved(LogOut(id), rc == Ok)
      ensures LogoutChange(old(backend.Db()), old(session).userId, id).Refused? ==>
        rc == LogoutChange(old(backend.Db()), old(session).userId, id).rc
    {
      LogOutMoves(backend.cfg, backend.Db(), session, id, true);
      LogOutMoves(backend.cfg, backend.Db(), session, id, false);
      rc := backend.Logout(session.userId, id);
      if rc == Ok && id == session.userId {
        session := NO_SESSION;
      }
    }

    /** wh_Auth_UserAdd */
    method UserAdd(name: CString, perms: Perms, how: Method, data: seq<byte>) returns (rc: Rc, id: nat)
      requires Valid()
      modifies backend.users, backend.ramCred, backend.nvm
      ensures Valid() && Moved(AddUser(name, perms, how, data), rc == Ok)
      ensures !MayAdd(session, perms, data) ==> rc == PermissionError && backend.NvmUntouched()
      ensures var c := AddChange(backend.cfg, old(backend.Db()), name, perms, how, data);
        && (rc == Ok ==> c.Accepted? && id == c.id)
        && (MayAdd(session, perms, data) && c.Refused? ==> rc == c.rc)
    {
      id := NO_USER;
      AddMoves(backend.cfg, backend.Db(), session, name, perms, how, data, true);
      AddMoves(backend.cfg, backend.Db(), session, name, perms, how, data, false);
      if !IsAdmin(session.perms) {
        var subset := Subset(perms);
        if !subset || data == [] {
          return PermissionError, NO_USER;
        }
      }
      rc, id := backend.UserAdd(name, perms, how, data);
    }

    /** wh_Auth_UserDelete */
    method UserDelete(id: nat) returns (rc: Rc)
      requires Valid()
      modifies backend.users, backend.ramCred, backend.nvm
      ensures Valid() && Moved(DeleteUser(id), rc == Ok)
      ensures DeleteChange(old(backend.Db()), session.userId, id).Refused? ==>
        rc == DeleteChange(old(backend.Db()), session.userId, id).rc
    {
      DeleteMoves(backend.cfg, backend.Db(), session, id, true);
      DeleteMoves(backend.cfg, backend.Db(), session, id, false);
      rc := backend.UserDelete(session.userId, id);
    }

    /** wh_Auth_UserSetPermissions: a user changing its own permissions keeps its session in step. */
    method UserSetPermissions(id: nat, perms: Perms) returns (rc: Rc)
      requires Valid()
      modifies this`session, backend.users, backend.nvm
      ensures Valid() && Moved(SetPerms(id, perms), rc == Ok)
      ensures SetPermissionsChange(old(backend.Db()), old(session).userId, id, perms).Refused? ==>
        rc == SetPermissionsChange(old(backend.Db()), old(session).userId, id, perms).rc
    {
      SetPermsMoves(backend.cfg, backend.Db(), session, id, perms, true);
      SetPermsMoves(backend.cfg, backend.Db(), session, id, perms, false);
      rc := backend.UserSetPermissions(session.userId, id, perms);
      if rc == Ok && id == session.userId && session.userId != NO_USER {
        session := session.(perms := perms);
      }
    }

    /** wh_Auth_UserGet */
    method UserGet(name: CString) returns (found: Lookup)
      requires Valid()
      ensures found == GetUser(backend.Db(), session.userId, name)
    {
      found := backend.UserGet(session.userId, name);
    }

    /** wh_Auth_UserSetCredentials */
    method UserSetCredentials(id: nat, how: Method, current: seq<byte>, data: seq<byte>) returns (rc: Rc)
      requires Valid()
      modifies backend.users, backend.ramCred, backend.nvm
      ensures Valid() && Moved(SetCreds(id, how, current, data), rc == Ok)
      ensures var c := SetCredentialsChange(backend.cfg, old(backend.Db()), session.userId, id, how, current, data);
        if Verifies(backend.cfg, old(backend.Db()), session.userId, id, how, current, data) && old(backend.ReadFault()) != Ok then
          rc == Access
        else c.Refused? ==> rc == c.rc
    {
      SetCredsMoves(backend.cfg, backend.Db(), session, id, how, current, data, true);
      SetCredsMoves(backend.cfg, backend.Db(), session, id, how, current, data, false);
      rc := backend.UserSetCredentials(session.userId, id, how, current, data);
    }
  }
}
