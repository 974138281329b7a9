/**
 Runs of requests: whether credentials are in NVM or in RAM, a back end whose storage does
 not fail answers like the abstract machine, request by request, and ends with its map.
 */
module TableRuns {
  import opened Codes
  import opened Permissions
  import opened AuthDb
  import opened AuthStore
  import opened AuthHistory
  import opened AuthBase
  import opened AuthMap
  import opened AuthTable
  import opened NativeLayout

  ghost function MapRun(cfg: Config, m: Users, reqs: seq<Request>): (Users, seq<Reply>)
    decreases |reqs|
  {
    if reqs == [] then (m, [])
    else
      var (m', reply) := MapStep(cfg, m, reqs[0]);
      var (end, replies) := MapRun(cfg, m', reqs[1..]);
      (end, [reply] + replies)
  }

  function DbRun(cfg: Config, db: Db, reqs: seq<Request>): (Db, seq<Reply>)
    decreases |reqs|
  {
    if reqs == [] then (db, [])
    else
      var (db', reply) := DbStep(cfg, db, reqs[0]);
      var (end, replies) := DbRun(cfg, db', reqs[1..]);
      (end, [reply] + replies)
  }

  ghost predicate NeverCollides(cfg: Config, m: Users, reqs: seq<Request>)
    decreases |reqs|
  {
    reqs == [] || (!Collides(cfg, m, reqs[0]) && NeverCollides(cfg, MapStep(cfg, m, reqs[0]).0, reqs[1..]))
  }

  predicate NameFits(req: Request) {
    req.Do? && req.call.Add? ==> |req.call.name| <= MAX_NAME_LEN
  }

  lemma {:induction false} FittingNamesNeverCollide(cfg: Config, m: Users, reqs: seq<Request>)
    requires forall req | req in reqs :: NameFits(req)
    ensures NeverCollides(cfg, m, reqs)
    decreases |reqs|
  {
    if reqs != [] {
      assert NameFits(reqs[0]);
      FittingNamesNeverCollide(cfg, MapStep(cfg, m, reqs[0]).0, reqs[1..]);
    }
  }

  /** Every run of requests without a colliding name: the slots give the map's replies and its last state. */
  lemma {:induction false} RunRefines(cfg: Config, db: Db, reqs: seq<Request>)
    requires NamesUnique(db) && NeverCollides(cfg, TableOf(db), reqs)
    ensures var (end, replies) := DbRun(cfg, db, reqs);
      NamesUnique(end) && MapRun(cfg, TableOf(db), reqs) == (TableOf(end), replies)
    decreases |reqs|
  {
    if reqs != [] {
      StepRefines(cfg, db, reqs[0]);
      RunRefines(cfg, DbStep(cfg, db, reqs[0]).0, reqs[1..]);
    }
  }

  // ------------------------------------------------------------------- storage that does not fail

  lemma {:induction false} QuietCommit(l: Layout, store: Store, steps: seq<Step>)
    requires ValidSteps(steps)
    ensures Commit(l, store, steps, []).rc == Ok && Commit(l, store, steps, []).faults == []
    decreases |steps|
  {
    if steps != [] {
      QuietCommit(l, Apply(l, store, steps[0].write), steps[1..]);
    }
  }

  /** The return code of a call that runs to its end. */
  function RcOf(cfg: Config, l: Layout, m: Machine, call: Call, faults: seq<Rc>): Rc {
    match ChangeOf(cfg, m.db, call)
    case Refused(rc) => rc
    case Accepted(_, _) => CommitCall(cfg, l, m.db, m.store, call, faults).rc
  }

  ghost function CallRcs(cfg: Config, l: Layout, m: Machine, calls: seq<Call>): seq<Rc>
    requires SoundLayout(l)
    decreases |calls|
  {
    if calls == [] then []
    else [RcOf(cfg, l, m, calls[0], [])] + CallRcs(cfg, l, After(cfg, l, m, Run(calls[0], [])), calls[1..])
  }

  function Quiet(calls: seq<Call>): seq<Event> {
    if calls == [] then [] else [Run(calls[0], [])] + Quiet(calls[1..])
  }

  function Requests(calls: seq<Call>): seq<Request> {
    if calls == [] then [] else [Do(calls[0])] + Requests(calls[1..])
  }

  function RcsOf(replies: seq<Reply>): seq<Rc> {
    if replies == [] then [] else [replies[0].rc] + RcsOf(replies[1..])
  }

  lemma QuietCall(cfg: Config, l: Layout, m: Machine, call: Call)
    requires SoundLayout(l)
    ensures After(cfg, l, m, Run(call, [])).db == DbStep(cfg, m.db, Do(call)).0
    ensures RcOf(cfg, l, m, call, []) == DbStep(cfg, m.db, Do(call)).1.rc
  {
    var c := ChangeOf(cfg, m.db, call);
    if c.Accepted? {
      QuietCommit(l, m.store, StepsOf(m.db, call, c.db, c.id));
    }
  }

  /** A history in NVM without a storage failure: the databases and codes are those of the slots alone. */
  lemma {:induction false} QuietHistory(cfg: Config, l: Layout, m: Machine, calls: seq<Call>)
    requires SoundLayout(l)
    ensures AfterAll(cfg, l, m, Quiet(calls)).db == DbRun(cfg, m.db, Requests(calls)).0
    ensures CallRcs(cfg, l, m, calls) == RcsOf(DbRun(cfg, m.db, Requests(calls)).1)
    decreases |calls|
  {
    if calls != [] {
      QuietCall(cfg, l, m, calls[0]);
      var m' := After(cfg, l, m, Run(calls[0], []));
      QuietHistory(cfg, l, m', calls[1..]);
      assert Quiet(calls)[1..] == Quiet(calls[1..]);
      assert Requests(calls)[1..] == Requests(calls[1..]);
      var (end, replies) := DbRun(cfg, m'.db, Requests(calls[1..]));
      var reply := DbStep(cfg, m.db, Do(calls[0])).1;
      assert ([reply] + replies)[1..] == replies;
    }
  }

  /** The same history in the terms of the abstract machine. */
  lemma QuietHistoryRefines(cfg: Config, l: Layout, m: Machine, calls: seq<Call>)
    requires SoundLayout(l) && NamesUnique(m.db)
    requires forall call | call in calls :: NameFits(Do(call))
    ensures var end, (users, replies) := AfterAll(cfg, l, m, Quiet(calls)), MapRun(cfg, TableOf(m.db), Requests(calls));
      && NamesUnique(end.db) && TableOf(end.db) == users
      && CallRcs(cfg, l, m, calls) == RcsOf(replies)
  {
    RequestsAre(calls);
    FittingNamesNeverCollide(cfg, TableOf(m.db), Requests(calls));
    RunRefines(cfg, m.db, Requests(calls));
    QuietHistory(cfg, l, m, calls);
  }

  lemma {:induction false} RequestsAre(calls: seq<Call>)
    ensures forall req | req in Requests(calls) :: req.Do? && req.call in calls
    decreases |calls|
  {
    if calls != [] {
      RequestsAre(calls[1..]);
    }
  }

  // ------------------------------------------------------------------------- the back ends

  /** The storage behind this back end, if any, has no failure left to give. */
  ghost predicate QuietStorage(b: Backend)
    reads b, b.nvm
  {
    b.nvm != null ==> b.nvm.faults == [] && b.nvm.readFaults == []
  }

  lemma StepOfAdd(cfg: Config, db: Db, name: CString, perms: Perms, how: Method, data: seq<byte>, db': Db, rc: Rc, id: nat)
    requires var c := AddChange(cfg, db, name, perms, how, data);
      if c.Refused? then (db', rc, id) == (db, c.rc, NO_USER) else (db', rc, id) == (c.db, Ok, c.id)
    ensures DbStep(cfg, db, Do(Add(name, perms, how, data))) == (db', Reply(rc, id, None))
  {
  }

  lemma StepOfChange(cfg: Config, db: Db, call: Call, c: Change, db': Db, rc: Rc)
    requires !call.Add? && !call.SignIn? && c == ChangeOf(cfg, db, call)
    requires if c.Refused? then (db', rc) == (db, c.rc) else (db', rc) == (c.db, Ok)
    ensures DbStep(cfg, db, Do(call)) == (db', Reply(rc, NO_USER, None))
  {
  }

  // Each call, its answer put together from the out-parameters of the back end.

  method AnswerAdd(b: Backend, name: CString, perms: Perms, how: Method, data: seq<byte>) returns (reply: Reply)
    requires b.Valid() && QuietStorage(b)
    modifies b.users, b.ramCred, b.nvm
    ensures b.Valid() && QuietStorage(b)
    ensures (b.Db(), reply) == DbStep(b.cfg, old(b.Db()), Do(Add(name, perms, how, data)))
  {
    ghost var db := b.Db();
    ghost var c := AddChange(b.cfg, db, name, perms, how, data);
    if b.nvm != null && c.Accepted? {
      QuietCommit(b.layout, b.nvm.objects, AddSteps(c.db, c.id));
    }
    var rc, id := b.UserAdd(name, perms, how, data);
    reply := Reply(rc, id, None);
    StepOfAdd(b.cfg, db, name, perms, how, data, b.Db(), rc, id);
  }

  method AnswerDelete(b: Backend, caller: nat, id: nat) returns (reply: Reply)
    requires b.Valid() && QuietStorage(b)
    modifies b.users, b.ramCred, b.nvm
    ensures b.Valid() && QuietStorage(b)
    ensures (b.Db(), reply) == DbStep(b.cfg, old(b.Db()), Do(Delete(caller, id)))
  {
    ghost var db := b.Db();
    ghost var c := DeleteChange(db, caller, id);
    if b.nvm != null && c.Accepted? {
      QuietCommit(b.layout, b.nvm.objects, DeleteSteps(db, c.db, id));
    }
    var rc := b.UserDelete(caller, id);
    reply := Reply(rc, NO_USER, None);
    StepOfChange(b.cfg, db, Delete(caller, id), c, b.Db(), rc);
  }

  method AnswerSetPermissions(b: Backend, caller: nat, id: nat, perms: Perms) returns (reply: Reply)
    requires b.Valid() && QuietStorage(b)
    modifies b.users, b.nvm
    ensures b.Valid() && QuietStorage(b)
    ensures (b.Db(), reply) == DbStep(b.cfg, old(b.Db()), Do(SetPermissions(caller, id, perms)))
  {
    ghost var db := b.Db();
    ghost var c := SetPermissionsChange(db, caller, id, perms);
    if b.nvm != null && c.Accepted? {
      QuietCommit(b.layout, b.nvm.objects, [Step(PutIndex(c.db), [])]);
    }
    var rc := b.UserSetPermissions(caller, id, perms);
    reply := Reply(rc, NO_USER, None);
    StepOfChange(b.cfg, db, SetPermissions(caller, id, perms), c, b.Db(), rc);
  }

  method AnswerSetCredentials(b: Backend, caller: nat, id: nat, how: Method, current: seq<byte>, data: seq<byte>) returns (reply: Reply)
    requires b.Valid() && QuietStorage(b)
    modifies b.users, b.ramCred, b.nvm
    ensures b.Valid() && QuietStorage(b)
    ensures (b.Db(), reply) == DbStep(b.cfg, old(b.Db()), Do(SetCredentials(caller, id, how, current, data)))
  {
    ghost var db := b.Db();
    ghost var c := SetCredentialsChange(b.cfg, db, caller, id, how, current, data);
    if b.nvm != null && c.Accepted? {
      QuietCommit(b.layout, b.nvm.objects, SetCredentialsSteps(db, c.db, id));
    }
    assert b.ReadFault() == Ok;
    var rc := b.UserSetCredentials(caller, id, how, current, data);
    reply := Reply(rc, NO_USER, None);
    StepOfChange(b.cfg, db, SetCredentials(caller, id, how, current, data), c, b.Db(), rc);
  }

  method AnswerSignIn(b: Backend, how: Method, name: CString, data: seq<byte>) returns (reply: Reply)
    requires b.Valid() && QuietStorage(b)
    modifies b.users, b.nvm
    ensures b.Valid() && QuietStorage(b)
    ensures (b.Db(), reply) == DbStep(b.cfg, old(b.Db()), Do(SignIn(how, name, data)))
  {
    var rc, loggedIn, id, perms := b.Login(how, name, data);
    reply := if loggedIn then Reply(rc, id, Some(perms)) else Reply(rc, NO_USER, None);
  }

  method AnswerSignOut(b: Backend, caller: nat, id: nat) returns (reply: Reply)
    requires b.Valid() && QuietStorage(b)
    modifies b.users
    ensures b.Valid() && QuietStorage(b)
    ensures (b.Db(), reply) == DbStep(b.cfg, old(b.Db()), Do(SignOut(caller, id)))
  {
    ghost var db := b.Db();
    ghost var c := LogoutChange(db, caller, id);
    var rc := b.Logout(caller, id);
    reply := Reply(rc, NO_USER, None);
    StepOfChange(b.cfg, db, SignOut(caller, id), c, b.Db(), rc);
  }

  method Answer(b: Backend, req: Request) returns (reply: Reply)
    requires b.Valid() && QuietStorage(b)
    modifies b.users, b.ramCred, b.nvm
    ensures b.Valid() && QuietStorage(b)
    ensures (b.Db(), reply) == DbStep(b.cfg, old(b.Db()), req)
  {
    match req {
      case Get(caller, name) =>
        var found := b.UserGet(caller, name);
        reply := match found case LookupFails(rc) => Failed(rc) case Found(id, perms) => Reply(Ok, id, Some(perms));
      case Do(call) =>
        match call {
          case Add(name, perms, how, data) => reply := AnswerAdd(b, name, perms, how, data);
          case Delete(caller, id) => reply := AnswerDelete(b, caller, id);
          case SetPermissions(caller, id, perms) => reply := AnswerSetPermissions(b, caller, id, perms);
          case SetCredentials(caller, id, how, current, data) => reply := AnswerSetCredentials(b, caller, id, how, current, data);
          case SignIn(how, name, data) => reply := AnswerSignIn(b, how, name, data);
          case SignOut(caller, id) => reply := AnswerSignOut(b, caller, id);
        }
    }
  }

  /** The run is the replies so far followed by the run of the rest. */
  predicate PartOfRun(cfg: Config, start: Db, reqs: seq<Request>, done: nat, db: Db, replies: seq<Reply>)
    requires done <= |reqs|
  {
    DbRun(cfg, start, reqs) == (DbRun(cfg, db, reqs[done..]).0, replies + DbRun(cfg, db, reqs[done..]).1)
  }

  lemma RunAdvances(cfg: Config, start: Db, reqs: seq<Request>, done: nat, db: Db, replies: seq<Reply>)
    requires done < |reqs| && PartOfRun(cfg, start, reqs, done, db, replies)
    ensures var (db', reply) := DbStep(cfg, db, reqs[done]);
      PartOfRun(cfg, start, reqs, done + 1, db', replies + [reply])
  {
    var (db', reply) := DbStep(cfg, db, reqs[done]);
    assert reqs[done..][1..] == reqs[done + 1..];
    var rest := DbRun(cfg, db', reqs[done + 1..]).1;
    assert replies + ([reply] + rest) == (replies + [reply]) + rest;
  }

  /** Requests one after another, on either kind of storage: the run of the slots. */
  method AnswerAll(b: Backend, reqs: seq<Request>) returns (replies: seq<Reply>)
    requires b.Valid() && QuietStorage(b)
    modifies b.users, b.ramCred, b.nvm
    ensures b.Valid() && QuietStorage(b)
    ensures (b.Db(), replies) == DbRun(b.cfg, old(b.Db()), reqs)
  {
    replies := [];
    var i := 0;
    ghost var start := b.Db();
    assert reqs[0..] == reqs && forall rs: seq<Reply> :: [] + rs == rs;
    while i < |reqs|
      invariant i <= |reqs|
      invariant b.Valid() && QuietStorage(b)
      invariant PartOfRun(b.cfg, start, reqs, i, b.Db(), replies)
    {
      RunAdvances(b.cfg, start, reqs, i, b.Db(), replies);
      var reply := Answer(b, reqs[i]);
      replies, i := replies + [reply], i + 1;
    }
    assert reqs[i..] == [] && replies + [] == replies;
  }

  /** A start on no storage or a blank one, and then the requests. */
  method Serve(b: Backend, store: Nvm?, reqs: seq<Request>) returns (rc: Rc, replies: seq<Reply>)
    requires b.Shaped()
    requires store != null ==>
      store.Honest() && INDEX_ID !in store.objects && store.faults == [] && store.readFaults == []
    modifies b`nvm, b.users, b.ramCred, if store == null then {} else {store}
    ensures rc == Ok && b.Valid() && b.nvm == store
    ensures (b.Db(), replies) == DbRun(b.cfg, EMPTY_DB, reqs)
  {
    rc := b.Init(store);
    assert b.Db() == EMPTY_DB;
    replies := AnswerAll(b, reqs);
  }

  /**
   A back end that keeps credentials in RAM and one that keeps everything in a blank NVM,
   started and given the same requests: the same replies and the same users, and, when no name
   exceeds its field, those of the abstract machine on the empty map.
   */
  method SameAnswers(ram: Backend, inNvm: Backend, store: Nvm, reqs: seq<Request>) returns (a: seq<Reply>, b: seq<Reply>)
    requires ram.Shaped() && inNvm.Shaped() && ram.cfg == inNvm.cfg
    requires ram != inNvm && {ram.users as object, ram.ramCred} !! {inNvm.users as object, inNvm.ramCred, store}
    requires store.Honest() && INDEX_ID !in store.objects && store.faults == [] && store.readFaults == []
    modifies ram`nvm, ram.users, ram.ramCred, inNvm`nvm, inNvm.users, inNvm.ramCred, store
    ensures ram.Valid() && inNvm.Valid() && ram.nvm == null && inNvm.nvm == store
    ensures a == b && ram.Db() == inNvm.Db()
    ensures (forall req | req in reqs :: NameFits(req)) ==>
      NamesUnique(ram.Db()) && (TableOf(ram.Db()), a) == MapRun(ram.cfg, map[], reqs)
  {
    var up;
    up, a := Serve(ram, null, reqs);
    up, b := Serve(inNvm, store, reqs);
    if forall req | req in reqs :: NameFits(req) {
      RunFromEmpty(ram.cfg, reqs);
    }
  }

  lemma RunFromEmpty(cfg: Config, reqs: seq<Request>)
    requires forall req | req in reqs :: NameFits(req)
    ensures var (end, replies) := DbRun(cfg, EMPTY_DB, reqs);
      NamesUnique(end) && (TableOf(end), replies) == MapRun(cfg, map[], reqs)
  {
    assert TableOf(EMPTY_DB) == map[];
    FittingNamesNeverCollide(cfg, map[], reqs);
    RunRefines(cfg, EMPTY_DB, reqs);
  }

  /** A build without crypto needs no hash, so every theorem here has a configuration to speak of. */
  lemma PlainBuildIsSound(verify: (seq<byte>, seq<byte>) -> bool)
    ensures Sound(Config(false, false, _ => None, verify))
  {
  }

  method NewBackend(cfg: Config) returns (b: Backend)
    requires Sound(cfg)
    ensures fresh(b) && fresh(b.users) && fresh(b.ramCred)
    ensures b.Valid() && b.cfg == cfg && b.nvm == null
  {
    NativeIsSound();
    b := new Backend(cfg, Native());
  }

  /** The same from scratch, on the records as C lays them out: nothing is asked but that SHA-256 gives 32 bytes. */
  method NativeAnswers(cfg: Config, reqs: seq<Request>) returns (a: seq<Reply>, b: seq<Reply>)
    requires Sound(cfg)
    ensures a == b
    ensures (forall req | req in reqs :: NameFits(req)) ==> a == MapRun(cfg, map[], reqs).1
  {
    var ram := NewBackend(cfg);
    var inNvm := NewBackend(cfg);
    var store := new Nvm(map[], [], []);
    a, b := SameAnswers(ram, inNvm, store, reqs);
  }
}
