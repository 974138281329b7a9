/**
 The user database as a plain value, and what each backend operation of
 src/wh_auth_base.c does to it when storage behaves. An operation either refuses
 (with its return code) or yields the next database.
 */
module AuthDb {
  import opened Codes
  import opened Permissions

  const MAX_USERS := 5
  const MAX_CRED_LEN := 2048
  const MAX_NAME_LEN := 31
  const HASH_LEN := 32
  const NO_USER := 0

  datatype Method = NoMethod | Pin | Certificate

  datatype Cred = Cred(how: Method, bytes: seq<byte>)

  /** A char[32] field up to its terminator, if it has one. */
  type NameField = s: CString | |s| <= MAX_NAME_LEN + 1

  datatype Account = Account(name: NameField, perms: Perms, active: bool, cred: Option<Cred>)

  datatype Entry = Free | Used(account: Account)

  type Db = s: seq<Entry> | |s| == MAX_USERS
    witness [Free, Free, Free, Free, Free]

  /** Build options and the wolfCrypt calls, which stay uninterpreted. */
  datatype Config = Config(
    crypto: bool,
    certManager: bool,
    sha: seq<byte> -> Option<seq<byte>>,
    verify: (seq<byte>, seq<byte>) -> bool)

  ghost predicate Sound(cfg: Config) {
    forall x :: cfg.sha(x).Some? ==> |cfg.sha(x).value| == HASH_LEN
  }

  const EMPTY_DB: Db := [Free, Free, Free, Free, Free]

  predicate ValidId(id: nat) {
    1 <= id <= MAX_USERS
  }

  function NameAt(db: Db, i: nat): NameField
    requires i < MAX_USERS
  {
    if db[i].Used? then db[i].account.name else ""
  }

  /** A slot without a user is all zero, its permissions included. */
  function PermsAt(db: Db, id: nat): Perms
    requires ValidId(id)
  {
    if db[id - 1].Used? then db[id - 1].account.perms else NO_PERMS
  }

  /** strncpy into a 32-byte field followed by a terminator. */
  function StoredName(name: CString): NameField {
    if |name| <= MAX_NAME_LEN then name else name[..MAX_NAME_LEN]
  }

  predicate MethodSupported(cfg: Config, how: Method) {
    how == Pin || (how == Certificate && cfg.crypto && cfg.certManager)
  }

  function FindFrom(db: Db, name: CString, i: nat): (r: Option<nat>)
    requires i <= MAX_USERS
    ensures r.Some? ==> i <= r.value < MAX_USERS && NameAt(db, r.value) == name
    ensures r.Some? ==> forall k | i <= k < r.value :: NameAt(db, k) != name
    ensures r.None? ==> forall k | i <= k < MAX_USERS :: NameAt(db, k) != name
    decreases MAX_USERS - i
  {
    if i == MAX_USERS then None
    else if NameAt(db, i) == name then Some(i)
    else FindFrom(db, name, i + 1)
  }

  function Find(db: Db, name: CString): Option<nat> {
    FindFrom(db, name, 0)
  }

  function FirstFreeFrom(db: Db, i: nat): (r: Option<nat>)
    requires i <= MAX_USERS
    ensures r.Some? ==> i <= r.value < MAX_USERS && db[r.value].Free?
    ensures r.Some? ==> forall k | i <= k < r.value :: db[k].Used?
    ensures r.None? ==> forall k | i <= k < MAX_USERS :: db[k].Used?
    decreases MAX_USERS - i
  {
    if i == MAX_USERS then None
    else if db[i].Free? then Some(i)
    else FirstFreeFrom(db, i + 1)
  }

  function FirstFree(db: Db): Option<nat> {
    FirstFreeFrom(db, 0)
  }

  datatype Processed = Fails(rc: Rc) | Bytes(bytes: seq<byte>)

  /** A PIN as it is stored and compared: hashed, or copied when built without crypto. */
  function ProcessPin(cfg: Config, pin: seq<byte>): (r: Processed) {
    if cfg.crypto then
      match cfg.sha(pin)
      case None => Fails(Aborted)
      case Some(h) => Bytes(h)
    else if |pin| > MAX_CRED_LEN then Fails(BufferSize)
    else Bytes(pin)
  }

  /** A new credential as it is stored. */
  function ProcessNew(cfg: Config, how: Method, data: seq<byte>): Processed {
    if how == Pin then ProcessPin(cfg, data)
    else if |data| > MAX_CRED_LEN then Fails(BufferSize)
    else Bytes(data)
  }

  datatype Change = Refused(rc: Rc) | Accepted(db: Db, id: nat)

  /** wh_Auth_BaseUserAdd; an empty credential stands for NULL or a zero length. */
  function AddChange(cfg: Config, db: Db, name: CString, perms: Perms, how: Method, data: seq<byte>): (c: Change)
    ensures c.Accepted? ==> ValidId(c.id) && db[c.id - 1].Free? && c.db[c.id - 1].Used?
  {
    if data != [] && !MethodSupported(cfg, how) then Refused(BadArgs)
    else if Find(db, name).Some? then Refused(BadArgs)
    else if FirstFree(db).None? then Refused(BufferSize)
    else
      var i := FirstFree(db).value;
      if data == [] then
        Accepted(db[i := Used(Account(StoredName(name), Clamp(perms), false, None))], i + 1)
      else
        match ProcessNew(cfg, how, data)
        case Fails(rc) => Refused(rc)
        case Bytes(b) =>
          Accepted(db[i := Used(Account(StoredName(name), Clamp(perms), false, Some(Cred(how, b))))], i + 1)
  }

  function DeleteChange(db: Db, caller: nat, id: nat): Change {
    if !ValidId(id) then Refused(NotFound)
    else if !ValidId(caller) then Refused(BadArgs)
    else if !IsAdmin(PermsAt(db, caller)) then Refused(Access)
    else if db[id - 1].Free? then Refused(NotFound)
    else Accepted(db[id - 1 := Free], id)
  }

  function SetPermissionsChange(db: Db, caller: nat, id: nat, perms: Perms): Change {
    if !ValidId(id) || !ValidId(caller) then Refused(NotFound)
    else if !IsAdmin(PermsAt(db, caller)) then Refused(Access)
    else if db[id - 1].Free? then Refused(NotFound)
    else Accepted(db[id - 1 := Used(db[id - 1].account.(perms := Clamp(perms)))], id)
  }

  /** The caller proves knowledge of the stored credential, or that there is none. */
  function CheckCurrent(cfg: Config, cred: Option<Cred>, current: seq<byte>): Rc {
    match cred
    case None => if current == [] then Ok else BadArgs
    case Some(c) =>
      if current == [] then Access
      else if c.how == Pin && cfg.crypto then
        match cfg.sha(current) {
          case None => Aborted
          case Some(h) => if c.bytes == h then Ok else Access
        }
      else if c.bytes == current then Ok else Access
  }

  function SetCredentialsChange(cfg: Config, db: Db, caller: nat, id: nat, how: Method,
                                current: seq<byte>, data: seq<byte>): Change {
    if !ValidId(id) || !ValidId(caller) then Refused(BadArgs)
    else if caller != id && !IsAdmin(PermsAt(db, caller)) then Refused(Access)
    else if !MethodSupported(cfg, how) then Refused(BadArgs)
    else if db[id - 1].Free? then Refused(NotFound)
    else if |data| > MAX_CRED_LEN then Refused(BufferSize)
    else
      var account := db[id - 1].account;
      var verdict := CheckCurrent(cfg, account.cred, current);
      if verdict != Ok then Refused(verdict)
      else if data == [] then
        Accepted(db[id - 1 := Used(account.(cred := None))], id)
      else
        match ProcessNew(cfg, how, data)
        case Fails(rc) => Refused(rc)
        case Bytes(b) => Accepted(db[id - 1 := Used(account.(cred := Some(Cred(how, b))))], id)
  }

  /** The change gets as far as comparing the current credential with the stored one. */
  predicate Verifies(cfg: Config, db: Db, caller: nat, id: nat, how: Method, current: seq<byte>, data: seq<byte>) {
    && ValidId(id) && ValidId(caller) && (caller == id || IsAdmin(PermsAt(db, caller)))
    && MethodSupported(cfg, how) && db[id - 1].Used? && |data| <= MAX_CRED_LEN
    && db[id - 1].account.cred.Some? && current != []
  }

  function LogoutChange(db: Db, caller: nat, id: nat): Change {
    if caller == NO_USER || id == NO_USER then Refused(BadArgs)
    else if !ValidId(caller) || !ValidId(id) then Refused(NotFound)
    else if caller != id && !IsAdmin(PermsAt(db, caller)) then Refused(Access)
    else if db[id - 1].Free? then Accepted(db, id)
    else Accepted(db[id - 1 := Used(db[id - 1].account.(active := false))], id)
  }

  datatype Login = LoginFails(rc: Rc) | NotLoggedIn | LoggedIn(id: nat, perms: Perms, db: Db)

  /** The slot whose credential the presented data matches. */
  function Matching(cfg: Config, db: Db, how: Method, name: CString, data: seq<byte>): (r: Option<nat>)
    ensures r.Some? ==> r.value < MAX_USERS && db[r.value].Used?
  {
    match Find(db, name)
    case None => None
    case Some(i) =>
      if db[i].Free? || db[i].account.cred.None? || db[i].account.cred.value.how != how then None
      else
        var stored := db[i].account.cred.value.bytes;
        if how == Pin then (if ProcessPin(cfg, data) == Bytes(stored) then Some(i) else None)
        else if cfg.verify(stored, data) then Some(i) else None
  }

  /** The login gets as far as comparing with the stored credential. */
  predicate Consults(cfg: Config, db: Db, how: Method, name: CString, data: seq<byte>) {
    && MethodSupported(cfg, how)
    && (how == Pin ==> ProcessPin(cfg, data).Bytes?)
    && match Find(db, name)
       case None => false
       case Some(i) =>
         && db[i].Used? && db[i].account.cred.Some? && db[i].account.cred.value.how == how
         && (how == Pin ==> |db[i].account.cred.value.bytes| == |ProcessPin(cfg, data).bytes|)
  }

  function LoginChange(cfg: Config, db: Db, how: Method, name: CString, data: seq<byte>): Login {
    if !MethodSupported(cfg, how) then LoginFails(BadArgs)
    else if how == Pin && ProcessPin(cfg, data).Fails? then LoginFails(ProcessPin(cfg, data).rc)
    else
      match Matching(cfg, db, how, name, data)
      case None => NotLoggedIn
      case Some(i) =>
        var account := db[i].account;
        if account.active then NotLoggedIn
        else LoggedIn(i + 1, account.perms, db[i := Used(account.(active := true))])
  }

  datatype Lookup = LookupFails(rc: Rc) | Found(id: nat, perms: Perms)

  function GetUser(db: Db, caller: nat, name: CString): Lookup {
    if !ValidId(caller) then LookupFails(Access)
    else
      var admin := IsAdmin(PermsAt(db, caller));
      match Find(db, name)
      case None => LookupFails(if admin then NotFound else Access)
      case Some(i) =>
        if db[i].Free? then LookupFails(if admin then NotFound else Access)
        else if !admin && i + 1 != caller then LookupFails(Access)
        else Found(i + 1, db[i].account.perms)
  }

  /** Every session closed: what survives a restart. */
  function Inactive(db: Db): (r: Db)
    ensures forall i | 0 <= i < MAX_USERS ::
      r[i] == if db[i].Used? then Used(db[i].account.(active := false)) else db[i]
  {
    seq(MAX_USERS, i requires 0 <= i < MAX_USERS =>
      if db[i].Used? then Used(db[i].account.(active := false)) else db[i])
  }
}
