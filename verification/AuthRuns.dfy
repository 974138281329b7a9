/**
 Whole runs of several connections over one user database: without an admin signed in,
 nobody manufactures authority.
 */
module AuthRuns {
  import opened Codes
  import opened Permissions
  import opened AuthDb
  import opened AuthStore
  import opened AuthManager

  datatype World = World(db: Db, sessions: seq<Session>)

  /** An operation on one of the contexts; `stored` tells whether storage did its part. */
  datatype Turn = Turn(context: nat, op: Op, stored: bool)

  function After(cfg: Config, w: World, t: Turn): (w': World)
    ensures |w'.sessions| == |w.sessions|
  {
    if t.context >= |w.sessions| then w
    else
      var (db', s') := SessionNext(cfg, w.db, w.sessions[t.context], t.op, t.stored);
      World(db', w.sessions[t.context := s'])
  }

  function Run(cfg: Config, w: World, turns: seq<Turn>): (w': World)
    ensures |w'.sessions| == |w.sessions|
    decreases |turns|
  {
    if turns == [] then w else Run(cfg, After(cfg, w, turns[0]), turns[1..])
  }

  /** The user an accepted add creates in this turn. */
  function Created(cfg: Config, w: World, t: Turn): (id: Option<nat>)
    ensures id.Some? ==> ValidId(id.value) && t.context < |w.sessions| && t.op.AddUser?
  {
    if t.context < |w.sessions| && t.op.AddUser? && t.stored && MayAdd(w.sessions[t.context], t.op.perms, t.op.data) then
      match AddChange(cfg, w.db, t.op.name, t.op.perms, t.op.how, t.op.data)
      case Refused(_) => None
      case Accepted(_, id) => Some(id)
    else None
  }

  /** Who, among the users present at the start, is behind each user; NO_USER for nobody. */
  function RootsAfter(cfg: Config, w: World, roots: map<nat, nat>, t: Turn): map<nat, nat> {
    match Created(cfg, w, t)
    case None => roots
    case Some(id) =>
      var creator := w.sessions[t.context].userId;
      roots[id := if creator in roots then roots[creator] else NO_USER]
  }

  function RootsOf(cfg: Config, w: World, roots: map<nat, nat>, turns: seq<Turn>): map<nat, nat>
    decreases |turns|
  {
    if turns == [] then roots
    else RootsOf(cfg, After(cfg, w, turns[0]), RootsAfter(cfg, w, roots, turns[0]), turns[1..])
  }

  predicate NoAdminSession(w: World) {
    forall i | 0 <= i < |w.sessions| :: !IsAdmin(w.sessions[i].perms)
  }

  predicate NeverAdmin(cfg: Config, w: World, turns: seq<Turn>)
    decreases |turns|
  {
    NoAdminSession(w) && (turns == [] || NeverAdmin(cfg, After(cfg, w, turns[0]), turns[1..]))
  }

  /** A session caches what the database stores for its user. */
  predicate InStep(db: Db, s: Session) {
    s == NO_SESSION ||
    (ValidId(s.userId) && db[s.userId - 1].Used? && Clamp(s.perms) == Clamp(db[s.userId - 1].account.perms))
  }

  predicate AllInStep(w: World) {
    forall i | 0 <= i < |w.sessions| :: InStep(w.db, w.sessions[i])
  }

  function Authority(db: Db, id: nat): Perms {
    if ValidId(id) then PermsAt(db, id) else NO_PERMS
  }

  /** This user is one of the first, unchanged, or stays within what its root had at the start. */
  predicate Rooted(start: Db, db: Db, roots: map<nat, nat>, id: nat)
    requires ValidId(id)
  {
    if start[id - 1].Used? then
      id in roots && roots[id] == id && db[id - 1].Used? && db[id - 1].account.perms == start[id - 1].account.perms
    else db[id - 1].Used? ==>
      && id in roots
      && (roots[id] == NO_USER || (ValidId(roots[id]) && start[roots[id] - 1].Used?))
      && Within(db[id - 1].account.perms, Authority(start, roots[id]))
  }

  ghost predicate AllRooted(start: Db, db: Db, roots: map<nat, nat>) {
    forall id | ValidId(id) :: Rooted(start, db, roots, id)
  }

  /** What a creator may hand out is within what its own root had. */
  lemma GrantIsRooted(start: Db, db: Db, roots: map<nat, nat>, s: Session, perms: Perms)
    requires AllRooted(start, db, roots) && InStep(db, s)
    requires Within(perms, s.perms)
    requires forall id | id in roots :: ValidId(id)
    ensures var root := if s.userId in roots then roots[s.userId] else NO_USER;
      && (root == NO_USER || (ValidId(root) && start[root - 1].Used?))
      && Within(Clamp(perms), Authority(start, root))
  {
    ClampKeepsAuthority(perms, s.perms);
    if s != NO_SESSION {
      assert Rooted(start, db, roots, s.userId);
      var held := db[s.userId - 1].account.perms;
      assert Within(Clamp(perms), held) by {
        ClampKeepsAuthority(s.perms, perms);
        ClampKeepsAuthority(held, perms);
        ClampKeepsAuthority(perms, held);
      }
      if start[s.userId - 1].Free? {
        WithinIsTransitive(Clamp(perms), held, Authority(start, roots[s.userId]));
      }
    }
  }

  /** Same users and permissions in both databases. */
  predicate SamePerms(db: Db, db': Db) {
    forall i | 0 <= i < MAX_USERS ::
      if db[i].Free? then db'[i].Free? else db'[i].Used? && db'[i].account.perms == db[i].account.perms
  }

  lemma LogInGrantsNothing(cfg: Config, db: Db, s: Session, how: Method, name: CString, data: seq<byte>, stored: bool)
    requires InStep(db, s)
    ensures var (db', s') := SessionNext(cfg, db, s, LogIn(how, name, data), stored);
      SamePerms(db, db') && InStep(db', s')
  {
    LogInMoves(cfg, db, s, how, name, data, stored);
  }

  lemma LogOutGrantsNothing(cfg: Config, db: Db, s: Session, id: nat, stored: bool)
    requires InStep(db, s)
    ensures var (db', s') := SessionNext(cfg, db, s, LogOut(id), stored);
      SamePerms(db, db') && InStep(db', s')
  {
    LogOutMoves(cfg, db, s, id, stored);
  }

  lemma SetCredsGrantsNothing(cfg: Config, db: Db, s: Session, id: nat, how: Method,
                              current: seq<byte>, data: seq<byte>, stored: bool)
    requires InStep(db, s)
    ensures var (db', s') := SessionNext(cfg, db, s, SetCreds(id, how, current, data), stored);
      SamePerms(db, db') && InStep(db', s')
  {
    SetCredsMoves(cfg, db, s, id, how, current, data, stored);
  }

  lemma NonAdminCaller(db: Db, s: Session)
    requires InStep(db, s) && !IsAdmin(s.perms)
    ensures ValidId(s.userId) ==> !IsAdmin(PermsAt(db, s.userId))
  {
    ClampKeepsPermits(s.perms, 0, 0);
    if s != NO_SESSION {
      ClampKeepsPermits(db[s.userId - 1].account.perms, 0, 0);
    }
  }

  lemma AdminOpsRefused(cfg: Config, db: Db, s: Session, op: Op, stored: bool)
    requires InStep(db, s) && !IsAdmin(s.perms)
    requires op.DeleteUser? || op.SetPerms?
    ensures SessionNext(cfg, db, s, op, stored) == (db, s)
  {
    NonAdminCaller(db, s);
    if op.DeleteUser? {
      DeleteMoves(cfg, db, s, op.id, stored);
    } else {
      SetPermsMoves(cfg, db, s, op.id, op.perms, stored);
    }
  }

  /** Without an admin session, only an add touches anybody's permissions. */
  lemma OnlyAddsGrant(cfg: Config, db: Db, s: Session, op: Op, stored: bool)
    requires InStep(db, s) && !IsAdmin(s.perms)
    requires !op.AddUser?
    ensures var (db', s') := SessionNext(cfg, db, s, op, stored);
      SamePerms(db, db') && InStep(db', s')
  {
    match op {
      case LogIn(how, name, data) => LogInGrantsNothing(cfg, db, s, how, name, data, stored);
      case LogOut(id) => LogOutGrantsNothing(cfg, db, s, id, stored);
      case DeleteUser(_) => AdminOpsRefused(cfg, db, s, op, stored);
      case SetPerms(_, _) => AdminOpsRefused(cfg, db, s, op, stored);
      case SetCreds(id, how, current, data) => SetCredsGrantsNothing(cfg, db, s, id, how, current, data, stored);
    }
  }

  /** An add by a non-admin adds at most one account, within its caller's permissions. */
  lemma AddGrantsWithin(cfg: Config, db: Db, s: Session, op: Op, stored: bool)
    requires !IsAdmin(s.perms)
    requires op.AddUser?
    ensures var (db', s') := SessionNext(cfg, db, s, op, stored);
      var c := AddChange(cfg, db, op.name, op.perms, op.how, op.data);
      && s' == s
      && (db' != db ==> stored && MayAdd(s, op.perms, op.data) && c.Accepted?)
      && (stored && MayAdd(s, op.perms, op.data) && c.Accepted? ==>
            && Within(op.perms, s.perms)
            && ValidId(c.id) && db[c.id - 1].Free?
            && db'[c.id - 1].Used? && db'[c.id - 1].account.perms == Clamp(op.perms)
            && forall i | 0 <= i < MAX_USERS && i != c.id - 1 :: db'[i] == db[i])
  {
    AddMoves(cfg, db, s, op.name, op.perms, op.how, op.data, stored);
  }

  ghost predicate Inv(start: Db, w: World, roots: map<nat, nat>) {
    && AllInStep(w)
    && AllRooted(start, w.db, roots)
    && (forall id | id in roots :: ValidId(id))
  }

  lemma OthersStayInStep(db: Db, db': Db, s: Session)
    requires InStep(db, s)
    requires forall i | 0 <= i < MAX_USERS && db[i].Used? :: db'[i].Used? && db'[i].account.perms == db[i].account.perms
    ensures InStep(db', s)
  {
  }

  lemma TurnKeepsInv(cfg: Config, start: Db, w: World, roots: map<nat, nat>, t: Turn)
    requires Inv(start, w, roots) && NoAdminSession(w)
    ensures Inv(start, After(cfg, w, t), RootsAfter(cfg, w, roots, t))
  {
    if t.context < |w.sessions| {
      var s := w.sessions[t.context];
      assert InStep(w.db, s) && !IsAdmin(s.perms);
      var (db', s') := SessionNext(cfg, w.db, s, t.op, t.stored);
      var roots' := RootsAfter(cfg, w, roots, t);
      if t.op.AddUser? {
        AddTurnIsRooted(cfg, start, w, roots, t);
      } else {
        OnlyAddsGrant(cfg, w.db, s, t.op, t.stored);
        forall id | ValidId(id)
          ensures Rooted(start, db', roots, id)
        {
          assert Rooted(start, w.db, roots, id);
        }
      }
      forall i | 0 <= i < |w.sessions|
        ensures InStep(db', After(cfg, w, t).sessions[i])
      {
        assert InStep(w.db, w.sessions[i]);
        OthersStayInStep(w.db, db', w.sessions[i]);
      }
    }
  }

  /** One more account, within what its creator's root had. */
  lemma NewAccountIsRooted(start: Db, db: Db, db': Db, roots: map<nat, nat>, id: nat, root: nat)
    requires AllRooted(start, db, roots)
    requires ValidId(id) && db[id - 1].Free? && db'[id - 1].Used?
    requires forall i | 0 <= i < MAX_USERS && i != id - 1 :: db'[i] == db[i]
    requires root == NO_USER || (ValidId(root) && start[root - 1].Used?)
    requires Within(db'[id - 1].account.perms, Authority(start, root))
    ensures AllRooted(start, db', roots[id := root])
  {
    forall k | ValidId(k)
      ensures Rooted(start, db', roots[id := root], k)
    {
      assert Rooted(start, db, roots, k);
    }
  }

  lemma AddTurnIsRooted(cfg: Config, start: Db, w: World, roots: map<nat, nat>, t: Turn)
    requires Inv(start, w, roots) && NoAdminSession(w)
    requires t.context < |w.sessions| && t.op.AddUser?
    ensures var (db', s') := SessionNext(cfg, w.db, w.sessions[t.context], t.op, t.stored);
      var roots' := RootsAfter(cfg, w, roots, t);
      && s' == w.sessions[t.context]
      && (forall i | 0 <= i < MAX_USERS && w.db[i].Used? :: db'[i].Used? && db'[i].account.perms == w.db[i].account.perms)
      && AllRooted(start, db', roots')
      && (forall id | id in roots' :: ValidId(id))
  {
    var s := w.sessions[t.context];
    assert InStep(w.db, s) && !IsAdmin(s.perms);
    AddGrantsWithin(cfg, w.db, s, t.op, t.stored);
    var created := Created(cfg, w, t);
    if created.Some? {
      var (db', s') := SessionNext(cfg, w.db, s, t.op, t.stored);
      GrantIsRooted(start, w.db, roots, s, t.op.perms);
      NewAccountIsRooted(start, w.db, db', roots, created.value, if s.userId in roots then roots[s.userId] else NO_USER);
    }
  }

  lemma {:induction false} RunKeepsInv(cfg: Config, start: Db, w: World, roots: map<nat, nat>, turns: seq<Turn>)
    requires Inv(start, w, roots) && NeverAdmin(cfg, w, turns)
    ensures Inv(start, Run(cfg, w, turns), RootsOf(cfg, w, roots, turns))
    decreases |turns|
  {
    if turns != [] {
      TurnKeepsInv(cfg, start, w, roots, turns[0]);
      RunKeepsInv(cfg, start, After(cfg, w, turns[0]), RootsAfter(cfg, w, roots, turns[0]), turns[1..]);
    }
  }

  /** At the start everybody present is their own root. */
  function OwnRoots(db: Db): map<nat, nat> {
    map id: nat | 1 <= id <= MAX_USERS && ValidId(id) && db[id - 1].Used? :: id
  }

  lemma RootedMeans(start: Db, db: Db, roots: map<nat, nat>, id: nat)
    requires ValidId(id) && AllRooted(start, db, roots)
    ensures start[id - 1].Used? ==> db[id - 1].Used? && db[id - 1].account.perms == start[id - 1].account.perms
    ensures start[id - 1].Free? && db[id - 1].Used? ==>
      && id in roots
      && (roots[id] == NO_USER || (ValidId(roots[id]) && start[roots[id] - 1].Used?))
      && AuthorityWithin(db[id - 1].account.perms, Authority(start, roots[id]))
  {
    assert Rooted(start, db, roots, id);
    if start[id - 1].Free? && db[id - 1].Used? {
      WithinIsAuthority(db[id - 1].account.perms, Authority(start, roots[id]));
    }
  }

  /**
   In any run during which no admin is signed in: nobody present at the start gains or
   loses permissions, no created user is an admin, and every created user may do no more
   than the first user at the head of its chain of creators could do at the start.
   */
  lemma NoEscalation(cfg: Config, w: World, turns: seq<Turn>, id: nat)
    requires AllInStep(w) && NeverAdmin(cfg, w, turns)
    requires ValidId(id)
    ensures var end := Run(cfg, w, turns);
      var roots := RootsOf(cfg, w, OwnRoots(w.db), turns);
      && (w.db[id - 1].Used? ==> end.db[id - 1].Used? && end.db[id - 1].account.perms == w.db[id - 1].account.perms)
      && (w.db[id - 1].Free? && end.db[id - 1].Used? ==>
            && id in roots
            && (roots[id] == NO_USER || (ValidId(roots[id]) && w.db[roots[id] - 1].Used?))
            && AuthorityWithin(end.db[id - 1].account.perms, Authority(w.db, roots[id])))
  {
    RunKeepsInv(cfg, w.db, w, OwnRoots(w.db), turns);
    RootedMeans(w.db, Run(cfg, w, turns).db, RootsOf(cfg, w, OwnRoots(w.db), turns), id);
  }

  lemma PermitsUpwards(cached: Perms, held: Perms, root: Perms, group: nat, action: nat)
    requires Clamp(cached) == Clamp(held) && Within(held, root)
    requires Permits(cached, group, action)
    ensures Permits(root, group, action)
    ensures root != NO_PERMS
  {
    ClampKeepsPermits(cached, group, action);
    ClampKeepsPermits(held, group, action);
    PermitsIsMonotone(held, root, group, action);
  }

  /** A request of a created user that gets through comes from its root. */
  ghost predicate FromRoot(start: Db, roots: map<nat, nat>, s: Session, group: nat, action: nat) {
    ValidId(s.userId) && start[s.userId - 1].Free? && MayRequest(s, group, action) ==>
      && s.userId in roots
      && (if roots[s.userId] == NO_USER then group == GROUP_AUTH && action == ACTION_LOGOUT
          else MayRequest(Session(roots[s.userId], Authority(start, roots[s.userId]), true), group, action))
  }

  lemma RootedRequest(start: Db, db: Db, roots: map<nat, nat>, s: Session, group: nat, action: nat)
    requires AllRooted(start, db, roots) && InStep(db, s)
    ensures FromRoot(start, roots, s, group, action)
  {
    if ValidId(s.userId) && start[s.userId - 1].Free? && MayRequest(s, group, action) {
      assert Rooted(start, db, roots, s.userId);
      var held, root := db[s.userId - 1].account.perms, Authority(start, roots[s.userId]);
      if !(group == GROUP_AUTH && action == ACTION_LOGOUT) {
        PermitsUpwards(s.perms, held, root, (group / 256) % 256, action);
      }
    }
  }

  /**
   What a created user is let through at the gate after the run, in any later session,
   its root would have been let through before it.
   */
  lemma RequestsComeFromTheRoot(cfg: Config, w: World, turns: seq<Turn>, context: nat, group: nat, action: nat)
    requires AllInStep(w) && NeverAdmin(cfg, w, turns)
    requires context < |w.sessions|
    ensures FromRoot(w.db, RootsOf(cfg, w, OwnRoots(w.db), turns), Run(cfg, w, turns).sessions[context], group, action)
  {
    RunKeepsInv(cfg, w.db, w, OwnRoots(w.db), turns);
    var end := Run(cfg, w, turns);
    RootedRequest(w.db, end.db, RootsOf(cfg, w, OwnRoots(w.db), turns), end.sessions[context], group, action);
  }

  /** The same for keys. */
  lemma KeysComeFromTheRoot(cfg: Config, w: World, turns: seq<Turn>, context: nat, key: nat)
    requires AllInStep(w) && NeverAdmin(cfg, w, turns)
    requires context < |w.sessions|
    ensures var end := Run(cfg, w, turns);
      var roots := RootsOf(cfg, w, OwnRoots(w.db), turns);
      var s := end.sessions[context];
      ValidId(s.userId) && w.db[s.userId - 1].Free? && MayUseKey(s, key) ==>
        && s.userId in roots && roots[s.userId] != NO_USER
        && MayUseKey(Session(roots[s.userId], Authority(w.db, roots[s.userId]), true), key)
  {
    RunKeepsInv(cfg, w.db, w, OwnRoots(w.db), turns);
    var end := Run(cfg, w, turns);
    var s := end.sessions[context];
    assert InStep(end.db, s);
    if ValidId(s.userId) && w.db[s.userId - 1].Free? && MayUseKey(s, key) {
      assert Rooted(w.db, end.db, RootsOf(cfg, w, OwnRoots(w.db), turns), s.userId);
      assert KeyList(Clamp(s.perms)) == KeyList(s.perms);
      assert KeyList(Clamp(end.db[s.userId - 1].account.perms)) == KeyList(end.db[s.userId - 1].account.perms);
    }
  }
}
