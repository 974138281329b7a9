/**
 What the write order and the rollbacks of src/wh_auth_base.c buy: RAM and NVM
 agree after every call, a power cut leaves the database of before or after the
 call, and exactly where that stops being true.
 */
module AuthHistory {
  import opened Codes
  import opened Permissions
  import opened AuthDb
  import opened AuthStore

  // -------------------------------------------------------------- single writes

  lemma IndexWriteAgrees(l: Layout, db: Db, store: Store)
    requires SoundLayout(l)
    requires Restorable(db)
    ensures Agree(l, db, Apply(l, store, PutIndex(db))) <==> CredsMatch(db, store)
  {
    var store' := Apply(l, store, PutIndex(db));
    AgreeSplits(l, db, store');
    var data := store'[INDEX_ID].data;
    assert data[..|MAGIC|] == MAGIC;
    assert data[|MAGIC|..] == l.encode(Records(db));
    assert IndexRecords(l, store') == Records(db);
    assert IndexHolds(l, db, store');
    forall i | 0 <= i < MAX_USERS
      ensures CredMatches(db[i], store', i + 1) <==> CredMatches(db[i], store, i + 1)
    {
    }
  }

  /** Only the slot of `id` differs between the two databases. */
  predicate DiffersAt(db: Db, db': Db, id: nat)
    requires ValidId(id)
  {
    forall i | 0 <= i < MAX_USERS && i != id - 1 :: db'[i] == db[i]
  }

  /** The two databases put the same record in the index. */
  predicate SameIndex(db: Db, db': Db) {
    forall i | 0 <= i < MAX_USERS ::
      if db[i].Used? then db'[i].Used? && db'[i].account.name == db[i].account.name && db'[i].account.perms == db[i].account.perms
      else db'[i] == db[i]
  }

  /** Writing or dropping the blob of one user changes no other user's. */
  lemma CredWriteIsLocal(l: Layout, store: Store, w: Write, id: nat)
    requires ValidWrite(w) && !w.PutIndex?
    requires ValidId(id)
    requires w.PutCred? ==> CredUsable(Some(w.cred))
    ensures CredUnder(Apply(l, store, w), id)
         == if id != w.id then CredUnder(store, id) else if w.PutCred? then Some(w.cred) else None
    ensures INDEX_ID in Apply(l, store, w) <==> INDEX_ID in store
    ensures INDEX_ID in store ==> Apply(l, store, w)[INDEX_ID] == store[INDEX_ID]
  {
    assert id != w.id ==> CredId(id) != CredId(w.id);
  }

  lemma IndexUntouched(l: Layout, db: Db, db': Db, store: Store, store': Store)
    requires SoundLayout(l)
    requires SameIndex(db, db')
    requires IndexHolds(l, db, store)
    requires INDEX_ID in store' <==> INDEX_ID in store
    requires INDEX_ID in store ==> store'[INDEX_ID] == store[INDEX_ID]
    ensures IndexHolds(l, db', store')
  {
    if INDEX_ID in store {
      forall i | 0 <= i < MAX_USERS
        ensures RecordFits(IndexRecords(l, store')[i], i, db'[i])
      {
        assert RecordFits(IndexRecords(l, store)[i], i, db[i]);
      }
    } else {
      forall i | 0 <= i < MAX_USERS
        ensures db'[i] == db[i]
      {
        assert Inactive(db)[i] == EMPTY_DB[i];
      }
      assert db' == db;
    }
  }

  lemma CredWriteMatches(l: Layout, db: Db, db': Db, store: Store, w: Write)
    requires CredsMatch(db, store)
    requires ValidWrite(w) && !w.PutIndex?
    requires DiffersAt(db, db', w.id)
    requires w.PutCred? ==> CredUsable(Some(w.cred))
    requires db'[w.id - 1].Used? ==> db'[w.id - 1].account.cred == if w.PutCred? then Some(w.cred) else None
    ensures CredsMatch(db', Apply(l, store, w))
  {
    forall i | 0 <= i < MAX_USERS
      ensures CredMatches(db'[i], Apply(l, store, w), i + 1)
    {
      assert CredMatches(db[i], store, i + 1);
      CredWriteIsLocal(l, store, w, i + 1);
    }
  }

  lemma CredWriteRestorable(db: Db, db': Db, w: Write)
    requires Restorable(db)
    requires ValidWrite(w) && !w.PutIndex?
    requires DiffersAt(db, db', w.id) && SameIndex(db, db')
    requires w.PutCred? ==> CredUsable(Some(w.cred))
    requires db'[w.id - 1].Used? ==> db'[w.id - 1].account.cred == if w.PutCred? then Some(w.cred) else None
    ensures Restorable(db')
  {
    forall i | 0 <= i < MAX_USERS && db'[i].Used?
      ensures |db'[i].account.name| <= MAX_NAME_LEN
      ensures db'[i].account.perms.keyIdCount <= MAX_KEY_IDS
      ensures CredUsable(db'[i].account.cred)
    {
      assert db[i].Used?;
    }
  }

  /** A change of credentials and sessions only: the index object need not be touched. */
  lemma CredWriteAgrees(l: Layout, db: Db, db': Db, store: Store, w: Write)
    requires SoundLayout(l)
    requires Agree(l, db, store)
    requires ValidWrite(w) && !w.PutIndex?
    requires DiffersAt(db, db', w.id) && SameIndex(db, db')
    requires w.PutCred? ==> CredUsable(Some(w.cred))
    requires db'[w.id - 1].Used? ==> db'[w.id - 1].account.cred == if w.PutCred? then Some(w.cred) else None
    ensures Agree(l, db', Apply(l, store, w))
  {
    var store' := Apply(l, store, w);
    AgreeSplits(l, db, store);
    AgreeSplits(l, db', store');
    CredWriteIsLocal(l, store, w, w.id);
    IndexUntouched(l, db, db', store, store');
    CredWriteMatches(l, db, db', store, w);
    CredWriteRestorable(db, db', w);
  }

  // ------------------------------------------------------------- what a call changes

  lemma AddedEntry(cfg: Config, db: Db, call: Call)
    requires Sound(cfg) && Restorable(db)
    requires call.Add? && ChangeOf(cfg, db, call).Accepted?
    ensures var c := ChangeOf(cfg, db, call);
      && ValidId(c.id)
      && DiffersAt(db, c.db, c.id)
      && db[c.id - 1].Free? && c.db[c.id - 1].Used?
      && (CredAt(c.db, c.id).None? <==> call.data == [])
      && CredUsable(CredAt(c.db, c.id))
      && Restorable(c.db)
  {
    var c := ChangeOf(cfg, db, call);
    assert |StoredName(call.name)| <= MAX_NAME_LEN;
    assert Clamp(call.perms).keyIdCount <= MAX_KEY_IDS;
    if call.data != [] {
      assert CredUsable(c.db[c.id - 1].account.cred);
    }
  }

  lemma DeletedEntry(cfg: Config, db: Db, call: Call)
    requires Restorable(db)
    requires call.Delete? && ChangeOf(cfg, db, call).Accepted?
    ensures var c := ChangeOf(cfg, db, call);
      && ValidId(c.id) && c.id == call.id
      && DiffersAt(db, c.db, c.id)
      && db[c.id - 1].Used? && c.db[c.id - 1].Free?
      && Restorable(c.db)
  {
  }

  lemma PermissionsEntry(cfg: Config, db: Db, call: Call)
    requires Restorable(db)
    requires call.SetPermissions? && ChangeOf(cfg, db, call).Accepted?
    ensures var c := ChangeOf(cfg, db, call);
      && ValidId(c.id)
      && DiffersAt(db, c.db, c.id)
      && db[c.id - 1].Used? && c.db[c.id - 1].Used?
      && CredAt(c.db, c.id) == CredAt(db, c.id)
      && Restorable(c.db)
  {
    assert Clamp(call.perms).keyIdCount <= MAX_KEY_IDS;
  }

  lemma CredentialsEntry(cfg: Config, db: Db, call: Call)
    requires Sound(cfg) && Restorable(db)
    requires call.SetCredentials? && ChangeOf(cfg, db, call).Accepted?
    ensures var c := ChangeOf(cfg, db, call);
      && ValidId(c.id)
      && DiffersAt(db, c.db, c.id)
      && db[c.id - 1].Used? && c.db[c.id - 1].Used?
      && SameIndex(db, c.db)
      && CredUsable(CredAt(c.db, c.id))
      && (CredAt(db, c.id) == CredAt(c.db, c.id) == None ==> c.db == db)
  {
  }

  lemma SessionOnly(cfg: Config, db: Db, call: Call)
    requires call.SignIn? || call.SignOut?
    requires ChangeOf(cfg, db, call).Accepted?
    ensures Inactive(ChangeOf(cfg, db, call).db) == Inactive(db)
  {
  }

  // --------------------------------------------------------------- one whole call

  /** An add without a credential finds no blob left behind under the id it is given. */
  predicate SlotReady(call: Call, id: nat, store: Store) {
    call.Add? && call.data == [] && ValidId(id) ==> CredId(id) !in store
  }

  /** The write that should undo a failed call fails as well. */
  predicate UndoFails(faults: seq<Rc>) {
    |faults| >= 3 && faults[0] == Ok && faults[1] != Ok && faults[2] != Ok
  }

  /** A delete whose blob cannot be destroyed and whose index entry cannot be brought back. */
  predicate Stranded(db: Db, call: Call, faults: seq<Rc>) {
    call.Delete? && ValidId(call.id) && CredAt(db, call.id).Some? && UndoFails(faults)
  }

  function CommitCall(cfg: Config, l: Layout, db: Db, store: Store, call: Call, faults: seq<Rc>): Outcome
    requires ChangeOf(cfg, db, call).Accepted?
  {
    var c := ChangeOf(cfg, db, call);
    Commit(l, store, StepsOf(db, call, c.db, c.id), faults)
  }

  lemma CommitOne(l: Layout, store: Store, a: Step, faults: seq<Rc>)
    requires ValidStep(a) && a.undo == []
    ensures Commit(l, store, [a], faults)
         == if Next(faults) == Ok
            then Outcome(Ok, Apply(l, store, a.write), Rest(faults), [Apply(l, store, a.write)])
            else Outcome(Next(faults), store, Rest(faults), [])
  {
    if Next(faults) == Ok {
      assert [a][1..] == [];
      assert [Apply(l, store, a.write)] + [] == [Apply(l, store, a.write)];
    }
  }

  lemma UndoOne(l: Layout, store: Store, w: Write, faults: seq<Rc>, rc: Rc)
    requires ValidWrite(w)
    ensures Undo(l, store, [w], faults, rc)
         == if Next(faults) == Ok
            then Outcome(rc, Apply(l, store, w), Rest(faults), [Apply(l, store, w)])
            else Outcome(rc, store, Rest(faults), [])
  {
    assert [w][1..] == [];
    if Next(faults) == Ok {
      assert [Apply(l, store, w)] + [] == [Apply(l, store, w)];
    }
  }

  lemma CommitTwo(l: Layout, store: Store, a: Step, b: Step, faults: seq<Rc>)
    requires ValidStep(a) && ValidStep(b) && a.undo == []
    ensures Next(faults) != Ok ==> Commit(l, store, [a, b], faults) == Outcome(Next(faults), store, Rest(faults), [])
    ensures Next(faults) == Ok && Next(Rest(faults)) == Ok ==>
      var first := Apply(l, store, a.write);
      Commit(l, store, [a, b], faults)
        == Outcome(Ok, Apply(l, first, b.write), Rest(Rest(faults)), [first, Apply(l, first, b.write)])
    ensures Next(faults) == Ok && Next(Rest(faults)) != Ok ==>
      var first := Apply(l, store, a.write);
      var undone := Undo(l, first, b.undo, Rest(Rest(faults)), Next(Rest(faults)));
      Commit(l, store, [a, b], faults) == undone.(visited := [first] + undone.visited)
  {
    if Next(faults) == Ok {
      assert [a, b][1..] == [b];
      if Next(Rest(faults)) == Ok {
        var first := Apply(l, store, a.write);
        var second := Apply(l, first, b.write);
        assert [b][1..] == [];
        assert Commit(l, first, [b], Rest(faults)) == Outcome(Ok, second, Rest(Rest(faults)), [second]) by {
          assert [second] + [] == [second];
        }
        assert [first] + [second] == [first, second];
      }
    }
  }

  /** The four ways two writes with an undo can end. */
  lemma CommitTwoUndone(l: Layout, store: Store, a: Write, b: Write, back: Write, faults: seq<Rc>)
    requires ValidWrite(a) && ValidWrite(b) && ValidWrite(back)
    ensures var o := Commit(l, store, [Step(a, []), Step(b, [back])], faults);
      var first := Apply(l, store, a);
      if Next(faults) != Ok then o.rc != Ok && o.store == store && o.visited == []
      else if Next(Rest(faults)) == Ok then o.rc == Ok && o.store == Apply(l, first, b) && o.visited == [first, Apply(l, first, b)]
      else if UndoFails(faults) then o.rc != Ok && o.store == first && o.visited == [first]
      else o.rc != Ok && o.store == Apply(l, first, back) && o.visited == [first, Apply(l, first, back)]
  {
    var first := Apply(l, store, a);
    CommitTwo(l, store, Step(a, []), Step(b, [back]), faults);
    UndoOne(l, first, back, Rest(Rest(faults)), Next(Rest(faults)));
  }

  // ------------------------------------------------------- agreement, call by call

  ghost predicate EitherSide(l: Layout, db: Db, db': Db, visited: seq<Store>)
    requires SoundLayout(l)
  {
    forall k | 0 <= k < |visited| :: Agree(l, db, visited[k]) || Agree(l, db', visited[k])
  }

  lemma OtherCredsUntouched(l: Layout, db: Db, db': Db, store: Store, id: nat)
    requires ValidId(id) && DiffersAt(db, db', id)
    requires CredsMatch(db, store)
    ensures CredsMatch(db', store) <==> CredMatches(db'[id - 1], store, id)
  {
    forall i | 0 <= i < MAX_USERS && i != id - 1
      ensures CredMatches(db'[i], store, i + 1)
    {
      assert CredMatches(db[i], store, i + 1);
    }
    if CredsMatch(db', store) {
      assert CredMatches(db'[id - 1], store, (id - 1) + 1);
    }
  }

  lemma AddWritesNoCred(l: Layout, db: Db, db': Db, store: Store, id: nat, faults: seq<Rc>)
    requires SoundLayout(l)
    requires Agree(l, db, store) && Restorable(db')
    requires ValidId(id) && DiffersAt(db, db', id)
    requires db'[id - 1].Used? && CredAt(db', id).None?
    ensures var o := Commit(l, store, AddSteps(db', id), faults);
      && (o.rc == Ok ==> (Agree(l, db', o.store) <==> CredId(id) !in store))
      && (o.rc != Ok ==> Agree(l, db, o.store))
      && (CredId(id) !in store ==> EitherSide(l, db, db', o.visited))
  {
    AgreeSplits(l, db, store);
    CommitOne(l, store, Step(PutIndex(db'), []), faults);
    OtherCredsUntouched(l, db, db', store, id);
    IndexWriteAgrees(l, db', store);
  }

  lemma AddStores(l: Layout, db: Db, db': Db, store: Store, id: nat)
    requires SoundLayout(l)
    requires Agree(l, db, store) && Restorable(db')
    requires ValidId(id) && DiffersAt(db, db', id)
    requires db[id - 1].Free? && CredAt(db', id).Some? && CredUsable(CredAt(db', id))
    ensures var first := Apply(l, store, PutCred(id, CredAt(db', id).value));
      && Agree(l, db, first)
      && Agree(l, db', Apply(l, first, PutIndex(db')))
      && Agree(l, db, Apply(l, first, DropCred(id)))
  {
    var blob := PutCred(id, CredAt(db', id).value);
    var first := Apply(l, store, blob);
    CredWriteAgrees(l, db, db, store, blob);
    CredWriteAgrees(l, db, db, first, DropCred(id));
    assert Agree(l, db', Apply(l, first, PutIndex(db'))) by {
      CredWriteIsLocal(l, store, blob, id);
      AgreeSplits(l, db, first);
      OtherCredsUntouched(l, db, db', first, id);
      IndexWriteAgrees(l, db', first);
    }
  }

  lemma AddWritesCred(l: Layout, db: Db, db': Db, store: Store, id: nat, faults: seq<Rc>)
    requires SoundLayout(l)
    requires Agree(l, db, store) && Restorable(db')
    requires ValidId(id) && DiffersAt(db, db', id)
    requires db[id - 1].Free? && CredAt(db', id).Some? && CredUsable(CredAt(db', id))
    ensures var o := Commit(l, store, AddSteps(db', id), faults);
      && (o.rc == Ok ==> Agree(l, db', o.store))
      && (o.rc != Ok ==> Agree(l, db, o.store))
      && EitherSide(l, db, db', o.visited)
  {
    var blob := PutCred(id, CredAt(db', id).value);
    AddStores(l, db, db', store, id);
    CommitTwoUndone(l, store, blob, PutIndex(db'), DropCred(id), faults);
  }

  lemma DifferentUsersDisagree(l: Layout, db: Db, db': Db, store: Store, id: nat)
    requires SoundLayout(l)
    requires ValidId(id) && db[id - 1].Used? && db'[id - 1].Free?
    ensures !(Agree(l, db, store) && Agree(l, db', store))
  {
    assert Inactive(db)[id - 1] != Inactive(db')[id - 1];
  }

  lemma RestoredIndexAgrees(l: Layout, db: Db, db': Db, store: Store)
    requires SoundLayout(l)
    requires Agree(l, db, store)
    ensures Agree(l, db, Apply(l, Apply(l, store, PutIndex(db')), PutIndex(db)))
  {
    var first := Apply(l, store, PutIndex(db'));
    AgreeSplits(l, db, store);
    forall i | 0 <= i < MAX_USERS
      ensures CredMatches(db[i], first, i + 1)
    {
      assert CredMatches(db[i], store, i + 1);
    }
    IndexWriteAgrees(l, db, first);
  }

  lemma RemovedEntryAgrees(l: Layout, db: Db, db': Db, store: Store, id: nat)
    requires SoundLayout(l)
    requires Agree(l, db, store) && Restorable(db')
    requires ValidId(id) && DiffersAt(db, db', id) && db'[id - 1].Free?
    ensures Agree(l, db', Apply(l, store, PutIndex(db')))
  {
    AgreeSplits(l, db, store);
    OtherCredsUntouched(l, db, db', store, id);
    IndexWriteAgrees(l, db', store);
  }

  lemma DeleteStores(l: Layout, db: Db, db': Db, store: Store, id: nat)
    requires SoundLayout(l)
    requires Agree(l, db, store) && Restorable(db')
    requires ValidId(id) && DiffersAt(db, db', id) && db'[id - 1].Free?
    ensures var first := Apply(l, store, PutIndex(db'));
      && Agree(l, db', first)
      && Agree(l, db', Apply(l, first, DropCred(id)))
      && Agree(l, db, Apply(l, first, PutIndex(db)))
  {
    RemovedEntryAgrees(l, db, db', store, id);
    CredWriteAgrees(l, db', db', Apply(l, store, PutIndex(db')), DropCred(id));
    RestoredIndexAgrees(l, db, db', store);
  }

  lemma DeleteWritesCred(l: Layout, db: Db, db': Db, store: Store, id: nat, faults: seq<Rc>)
    requires SoundLayout(l)
    requires Agree(l, db, store) && Restorable(db')
    requires ValidId(id) && DiffersAt(db, db', id) && db'[id - 1].Free?
    ensures var o := Commit(l, store, [Step(PutIndex(db'), []), Step(DropCred(id), [PutIndex(db)])], faults);
      && Agree(l, if o.rc == Ok || UndoFails(faults) then db' else db, o.store)
      && (UndoFails(faults) ==> o.rc != Ok)
      && EitherSide(l, db, db', o.visited)
  {
    DeleteStores(l, db, db', store, id);
    CommitTwoUndone(l, store, PutIndex(db'), DropCred(id), PutIndex(db), faults);
  }

  lemma DeleteWritesAgree(l: Layout, db: Db, db': Db, store: Store, id: nat, faults: seq<Rc>)
    requires SoundLayout(l)
    requires Agree(l, db, store) && Restorable(db')
    requires ValidId(id) && DiffersAt(db, db', id) && db'[id - 1].Free?
    ensures var o := Commit(l, store, DeleteSteps(db, db', id), faults);
      var stranded := CredAt(db, id).Some? && UndoFails(faults);
      && Agree(l, if o.rc == Ok || stranded then db' else db, o.store)
      && (stranded ==> o.rc != Ok)
      && EitherSide(l, db, db', o.visited)
  {
    if CredAt(db, id).None? {
      RemovedEntryAgrees(l, db, db', store, id);
      CommitOne(l, store, Step(PutIndex(db'), []), faults);
    } else {
      DeleteWritesCred(l, db, db', store, id, faults);
    }
  }

  lemma SetPermissionsWriteAgrees(l: Layout, db: Db, db': Db, store: Store, id: nat, faults: seq<Rc>)
    requires SoundLayout(l)
    requires Agree(l, db, store) && Restorable(db')
    requires ValidId(id) && DiffersAt(db, db', id)
    requires db[id - 1].Used? && db'[id - 1].Used? && CredAt(db', id) == CredAt(db, id)
    ensures var o := Commit(l, store, [Step(PutIndex(db'), [])], faults);
      && Agree(l, if o.rc == Ok then db' else db, o.store)
      && EitherSide(l, db, db', o.visited)
  {
    AgreeSplits(l, db, store);
    CommitOne(l, store, Step(PutIndex(db'), []), faults);
    OtherCredsUntouched(l, db, db', store, id);
    assert CredMatches(db[id - 1], store, (id - 1) + 1);
    IndexWriteAgrees(l, db', store);
  }

  lemma CredWriteCommits(l: Layout, db: Db, db': Db, store: Store, w: Write, faults: seq<Rc>)
    requires SoundLayout(l)
    requires Agree(l, db, store)
    requires ValidWrite(w) && !w.PutIndex?
    requires DiffersAt(db, db', w.id) && SameIndex(db, db')
    requires w.PutCred? ==> CredUsable(Some(w.cred))
    requires db'[w.id - 1].Used? ==> db'[w.id - 1].account.cred == if w.PutCred? then Some(w.cred) else None
    ensures var o := Commit(l, store, [Step(w, [])], faults);
      && Agree(l, if o.rc == Ok then db' else db, o.store)
      && EitherSide(l, db, db', o.visited)
  {
    CommitOne(l, store, Step(w, []), faults);
    CredWriteAgrees(l, db, db', store, w);
  }

  lemma SetCredentialsWriteAgrees(l: Layout, db: Db, db': Db, store: Store, id: nat, faults: seq<Rc>)
    requires SoundLayout(l)
    requires Agree(l, db, store)
    requires ValidId(id) && DiffersAt(db, db', id) && SameIndex(db, db')
    requires db'[id - 1].Used? && CredUsable(CredAt(db', id))
    requires CredAt(db, id) == CredAt(db', id) == None ==> db' == db
    ensures var o := Commit(l, store, SetCredentialsSteps(db, db', id), faults);
      && Agree(l, if o.rc == Ok then db' else db, o.store)
      && EitherSide(l, db, db', o.visited)
  {
    if CredAt(db', id).Some? {
      CredWriteCommits(l, db, db', store, PutCred(id, CredAt(db', id).value), faults);
    } else if CredAt(db, id).Some? {
      CredWriteCommits(l, db, db', store, DropCred(id), faults);
    }
  }

  ghost predicate Sides(cfg: Config, l: Layout, db: Db, store: Store, call: Call, faults: seq<Rc>)
    requires SoundLayout(l)
    requires ChangeOf(cfg, db, call).Accepted?
  {
    var c := ChangeOf(cfg, db, call);
    var o := CommitCall(cfg, l, db, store, call, faults);
    && (o.rc == Ok ==> (Agree(l, c.db, o.store) <==> SlotReady(call, c.id, store)))
    && (o.rc != Ok ==> (Agree(l, db, o.store) <==> !Stranded(db, call, faults)))
    && (Stranded(db, call, faults) ==> o.rc != Ok && Agree(l, c.db, o.store))
    && (SlotReady(call, c.id, store) ==> EitherSide(l, db, c.db, o.visited))
  }

  lemma AddSides(cfg: Config, l: Layout, db: Db, store: Store, call: Call, faults: seq<Rc>)
    requires SoundLayout(l) && Sound(cfg)
    requires Agree(l, db, store)
    requires call.Add? && ChangeOf(cfg, db, call).Accepted?
    ensures Sides(cfg, l, db, store, call, faults)
  {
    var c := ChangeOf(cfg, db, call);
    AgreeSplits(l, db, store);
    AddedEntry(cfg, db, call);
    if CredAt(c.db, c.id).None? {
      AddWritesNoCred(l, db, c.db, store, c.id, faults);
    } else {
      AddWritesCred(l, db, c.db, store, c.id, faults);
    }
  }

  lemma DeleteSides(cfg: Config, l: Layout, db: Db, store: Store, call: Call, faults: seq<Rc>)
    requires SoundLayout(l)
    requires Agree(l, db, store)
    requires call.Delete? && ChangeOf(cfg, db, call).Accepted?
    ensures Sides(cfg, l, db, store, call, faults)
  {
    var c := ChangeOf(cfg, db, call);
    AgreeSplits(l, db, store);
    DeletedEntry(cfg, db, call);
    DeleteWritesAgree(l, db, c.db, store, c.id, faults);
    DifferentUsersDisagree(l, db, c.db, CommitCall(cfg, l, db, store, call, faults).store, c.id);
  }

  lemma PermissionsSides(cfg: Config, l: Layout, db: Db, store: Store, call: Call, faults: seq<Rc>)
    requires SoundLayout(l)
    requires Agree(l, db, store)
    requires call.SetPermissions? && ChangeOf(cfg, db, call).Accepted?
    ensures Sides(cfg, l, db, store, call, faults)
  {
    var c := ChangeOf(cfg, db, call);
    AgreeSplits(l, db, store);
    PermissionsEntry(cfg, db, call);
    SetPermissionsWriteAgrees(l, db, c.db, store, c.id, faults);
  }

  lemma CredentialsSides(cfg: Config, l: Layout, db: Db, store: Store, call: Call, faults: seq<Rc>)
    requires SoundLayout(l) && Sound(cfg)
    requires Agree(l, db, store)
    requires call.SetCredentials? && ChangeOf(cfg, db, call).Accepted?
    ensures Sides(cfg, l, db, store, call, faults)
  {
    var c := ChangeOf(cfg, db, call);
    AgreeSplits(l, db, store);
    CredentialsEntry(cfg, db, call);
    SetCredentialsWriteAgrees(l, db, c.db, store, c.id, faults);
  }

  /**
   After any accepted call, with any pattern of storage failures, RAM and NVM agree: on
   the new database when the call succeeds and on the old one when it fails. The two
   exceptions are exact. An add without a credential agrees if and only if no blob was
   left under its id; a failed delete disagrees if and only if it is stranded.
   */
  lemma CallKeepsAgreement(cfg: Config, l: Layout, db: Db, store: Store, call: Call, faults: seq<Rc>)
    requires SoundLayout(l) && Sound(cfg)
    requires Agree(l, db, store)
    requires ChangeOf(cfg, db, call).Accepted?
    ensures var c := ChangeOf(cfg, db, call);
      var o := CommitCall(cfg, l, db, store, call, faults);
      && (o.rc == Ok ==> (Agree(l, c.db, o.store) <==> SlotReady(call, c.id, store)))
      && (o.rc != Ok ==> (Agree(l, db, o.store) <==> !Stranded(db, call, faults)))
      && (Stranded(db, call, faults) ==> o.rc != Ok && Agree(l, c.db, o.store))
  {
    CallSides(cfg, l, db, store, call, faults);
  }

  /** Wherever the power is cut, a start rebuilds one database or the other. */
  ghost predicate CutsAreAtomic(l: Layout, db: Db, db': Db, visited: seq<Store>)
    requires SoundLayout(l)
  {
    forall at | 0 <= at < |visited| ::
      Reload(l, visited[at]) == Some(Inactive(db)) || Reload(l, visited[at]) == Some(Inactive(db'))
  }

  /**
   Crash atomicity: cut the power after any write of the call, and what the next start
   rebuilds is the database before the call or the database after it. The one call for which
   this is false is an add without a credential over a blob left under its id, and then it is
   false as soon as the index is written.
   */
  lemma PowerCutIsAtomic(cfg: Config, l: Layout, db: Db, store: Store, call: Call, faults: seq<Rc>)
    requires SoundLayout(l) && Sound(cfg)
    requires Agree(l, db, store)
    requires ChangeOf(cfg, db, call).Accepted?
    ensures var c := ChangeOf(cfg, db, call);
      var atomic := CutsAreAtomic(l, db, c.db, CommitCall(cfg, l, db, store, call, faults).visited);
      atomic <==> (SlotReady(call, c.id, store) || Next(faults) != Ok)
  {
    var c := ChangeOf(cfg, db, call);
    if SlotReady(call, c.id, store) {
      CallSides(cfg, l, db, store, call, faults);
      SidesAreReloads(l, db, c.db, CommitCall(cfg, l, db, store, call, faults).visited);
    } else {
      OrphanCuts(cfg, l, db, store, call, faults);
    }
  }

  lemma OrphanCuts(cfg: Config, l: Layout, db: Db, store: Store, call: Call, faults: seq<Rc>)
    requires SoundLayout(l) && Sound(cfg)
    requires Agree(l, db, store)
    requires ChangeOf(cfg, db, call).Accepted? && !SlotReady(call, ChangeOf(cfg, db, call).id, store)
    ensures CutsAreAtomic(l, db, ChangeOf(cfg, db, call).db, CommitCall(cfg, l, db, store, call, faults).visited)
       <==> Next(faults) != Ok
  {
    var c := ChangeOf(cfg, db, call);
    BareAddCommits(cfg, l, db, store, call, faults);
    OrphanIsNeitherSide(cfg, l, db, store, call, c.db, c.id);
    var visited := CommitCall(cfg, l, db, store, call, faults).visited;
    if Next(faults) == Ok {
      assert visited[0] == Apply(l, store, PutIndex(c.db));
    }
  }

  lemma SidesAreReloads(l: Layout, db: Db, db': Db, visited: seq<Store>)
    requires SoundLayout(l) && EitherSide(l, db, db', visited)
    ensures CutsAreAtomic(l, db, db', visited)
  {
    forall at | 0 <= at < |visited|
      ensures Reload(l, visited[at]) == Some(Inactive(db)) || Reload(l, visited[at]) == Some(Inactive(db'))
    {
      assert Agree(l, db, visited[at]) || Agree(l, db', visited[at]);
    }
  }

  /** An add without a credential writes the index and nothing else. */
  lemma BareAddCommits(cfg: Config, l: Layout, db: Db, store: Store, call: Call, faults: seq<Rc>)
    requires ChangeOf(cfg, db, call).Accepted? && call.Add? && call.data == []
    ensures var written := Apply(l, store, PutIndex(ChangeOf(cfg, db, call).db));
      CommitCall(cfg, l, db, store, call, faults).visited == if Next(faults) == Ok then [written] else []
  {
    CommitOne(l, store, Step(PutIndex(ChangeOf(cfg, db, call).db), []), faults);
  }

  /** With a blob under the id, the index of a bare add stands for neither database. */
  lemma OrphanIsNeitherSide(cfg: Config, l: Layout, db: Db, store: Store, call: Call, db': Db, id: nat)
    requires SoundLayout(l) && Sound(cfg)
    requires Agree(l, db, store)
    requires ChangeOf(cfg, db, call) == Accepted(db', id) && !SlotReady(call, id, store)
    ensures var written := Apply(l, store, PutIndex(db'));
      !Agree(l, db, written) && !Agree(l, db', written)
  {
    AgreeSplits(l, db, store);
    AddedEntry(cfg, db, call);
    OtherCredsUntouched(l, db, db', store, id);
    IndexWriteAgrees(l, db', store);
    WrittenUserShows(l, db, db', store, id);
  }

  /** An index with one more user does not stand for the database without it. */
  lemma WrittenUserShows(l: Layout, db: Db, db': Db, store: Store, id: nat)
    requires SoundLayout(l) && ValidId(id) && db[id - 1].Free? && db'[id - 1].Used?
    ensures !Agree(l, db, Apply(l, store, PutIndex(db')))
  {
    var written := Apply(l, store, PutIndex(db'));
    AgreeSplits(l, db, written);
    var data := written[INDEX_ID].data;
    assert data[..|MAGIC|] == MAGIC && data[|MAGIC|..] == l.encode(Records(db'));
    assert IndexRecords(l, written) == Records(db');
    assert !RecordFits(Records(db')[id - 1], id - 1, db[id - 1]);
  }

  lemma CallSides(cfg: Config, l: Layout, db: Db, store: Store, call: Call, faults: seq<Rc>)
    requires SoundLayout(l) && Sound(cfg)
    requires Agree(l, db, store)
    requires ChangeOf(cfg, db, call).Accepted?
    ensures Sides(cfg, l, db, store, call, faults)
  {
    match call {
      case Add(_, _, _, _) => AddSides(cfg, l, db, store, call, faults);
      case Delete(_, _) => DeleteSides(cfg, l, db, store, call, faults);
      case SetPermissions(_, _, _) => PermissionsSides(cfg, l, db, store, call, faults);
      case SetCredentials(_, _, _, _, _) => CredentialsSides(cfg, l, db, store, call, faults);
      case SignIn(_, _, _) => SessionOnly(cfg, db, call);
      case SignOut(_, _) => SessionOnly(cfg, db, call);
    }
  }

  // ----------------------------------------------------------------- whole histories

  /** A call that runs to its end, or one during which power is lost after `at` writes. */
  datatype Event = Run(call: Call, faults: seq<Rc>) | PowerCut(call: Call, faults: seq<Rc>, at: nat)

  datatype Machine = Machine(db: Db, store: Store)

  function StoreAt(cfg: Config, l: Layout, m: Machine, call: Call, faults: seq<Rc>, at: nat): Store {
    if ChangeOf(cfg, m.db, call).Refused? then m.store
    else
      var visited := CommitCall(cfg, l, m.db, m.store, call, faults).visited;
      if at == 0 || visited == [] then m.store else visited[Min(at, |visited|) - 1]
  }

  ghost function After(cfg: Config, l: Layout, m: Machine, e: Event): Machine
    requires SoundLayout(l)
  {
    match e
    case Run(call, faults) => (
      match ChangeOf(cfg, m.db, call)
      case Refused(_) => m
      case Accepted(db', id) =>
        var o := CommitCall(cfg, l, m.db, m.store, call, faults);
        Machine(if o.rc == Ok then db' else m.db, o.store))
    case PowerCut(call, faults, at) =>
      var store' := StoreAt(cfg, l, m, call, faults, at);
      Machine(match Reload(l, store') case Some(db') => db' case None => EMPTY_DB, store')
  }

  ghost function AfterAll(cfg: Config, l: Layout, m: Machine, events: seq<Event>): Machine
    requires SoundLayout(l)
    decreases |events|
  {
    if events == [] then m else AfterAll(cfg, l, After(cfg, l, m, events[0]), events[1..])
  }

  /** Neither of the two exceptional situations is entered. */
  predicate Guarded(cfg: Config, m: Machine, e: Event) {
    match ChangeOf(cfg, m.db, e.call)
    case Refused(_) => true
    case Accepted(_, id) => SlotReady(e.call, id, m.store) && (e.Run? ==> !Stranded(m.db, e.call, e.faults))
  }

  ghost predicate AllGuarded(cfg: Config, l: Layout, m: Machine, events: seq<Event>)
    requires SoundLayout(l)
    decreases |events|
  {
    events == [] || (Guarded(cfg, m, events[0]) && AllGuarded(cfg, l, After(cfg, l, m, events[0]), events[1..]))
  }

  lemma RestartAgrees(l: Layout, db: Db, store: Store)
    requires SoundLayout(l)
    requires Agree(l, db, store)
    ensures Agree(l, Reload(l, store).value, store)
  {
    assert Inactive(Inactive(db)) == Inactive(db);
  }

  lemma EventKeepsAgreement(cfg: Config, l: Layout, m: Machine, e: Event)
    requires SoundLayout(l) && Sound(cfg)
    requires Agree(l, m.db, m.store) && Guarded(cfg, m, e)
    ensures var m' := After(cfg, l, m, e);
      Agree(l, m'.db, m'.store)
  {
    if ChangeOf(cfg, m.db, e.call).Accepted? {
      CallSides(cfg, l, m.db, m.store, e.call, e.faults);
    }
    if e.PowerCut? {
      var store' := StoreAt(cfg, l, m, e.call, e.faults, e.at);
      if Agree(l, m.db, store') {
        RestartAgrees(l, m.db, store');
      } else {
        RestartAgrees(l, ChangeOf(cfg, m.db, e.call).db, store');
      }
    }
  }

  /**
   Over any history of calls, storage failures and power cuts that stays clear of the two
   exceptional situations, a restart at any moment rebuilds exactly the database in RAM.
   */
  lemma {:induction false} HistoryAgrees(cfg: Config, l: Layout, m: Machine, events: seq<Event>)
    requires SoundLayout(l) && Sound(cfg)
    requires Agree(l, m.db, m.store) && AllGuarded(cfg, l, m, events)
    ensures var m' := AfterAll(cfg, l, m, events);
      Agree(l, m'.db, m'.store)
    decreases |events|
  {
    if events != [] {
      EventKeepsAgreement(cfg, l, m, events[0]);
      HistoryAgrees(cfg, l, After(cfg, l, m, events[0]), events[1..]);
    }
  }

  // --------------------------------------------------------- records without a user

  /** Every index this backend writes is of that kind, and no other write touches it. */
  lemma WritesKeepIndexClean(l: Layout, store: Store, w: Write)
    requires SoundLayout(l) && ValidWrite(w)
    requires CleanIndex(l, store)
    ensures CleanIndex(l, Apply(l, store, w))
  {
    if w.PutIndex? {
      var data := Apply(l, store, w)[INDEX_ID].data;
      assert data[..|MAGIC|] == MAGIC && data[|MAGIC|..] == l.encode(Records(w.db));
    } else {
      var store' := Apply(l, store, w);
      assert INDEX_ID in store' <==> INDEX_ID in store;
      assert INDEX_ID in store ==> store'[INDEX_ID] == store[INDEX_ID];
      assert IndexReadable(l, store') ==> IndexRecords(l, store') == IndexRecords(l, store);
    }
  }

  lemma {:induction false} UndoKeepsIndexClean(l: Layout, store: Store, writes: seq<Write>, faults: seq<Rc>, rc: Rc)
    requires SoundLayout(l) && CleanIndex(l, store)
    requires forall w | w in writes :: ValidWrite(w)
    ensures var o := Undo(l, store, writes, faults, rc);
      CleanIndex(l, o.store) && forall k | 0 <= k < |o.visited| :: CleanIndex(l, o.visited[k])
    decreases |writes|
  {
    if writes != [] {
      WritesKeepIndexClean(l, store, writes[0]);
      var store' := if Next(faults) == Ok then Apply(l, store, writes[0]) else store;
      UndoKeepsIndexClean(l, store', writes[1..], Rest(faults), rc);
    }
  }

  lemma {:induction false} CommitKeepsIndexClean(l: Layout, store: Store, steps: seq<Step>, faults: seq<Rc>)
    requires SoundLayout(l) && CleanIndex(l, store) && ValidSteps(steps)
    ensures var o := Commit(l, store, steps, faults);
      CleanIndex(l, o.store) && forall k | 0 <= k < |o.visited| :: CleanIndex(l, o.visited[k])
    decreases |steps|
  {
    if steps != [] {
      if Next(faults) == Ok {
        WritesKeepIndexClean(l, store, steps[0].write);
        CommitKeepsIndexClean(l, Apply(l, store, steps[0].write), steps[1..], Rest(faults));
      } else {
        assert ValidStep(steps[0]);
        UndoKeepsIndexClean(l, store, steps[0].undo, Rest(faults), Next(faults));
      }
    }
  }

  /** Whatever happens in a history, a start finds an index it can load as this backend wrote it. */
  lemma {:induction false} HistoryKeepsIndexClean(cfg: Config, l: Layout, m: Machine, events: seq<Event>)
    requires SoundLayout(l) && CleanIndex(l, m.store)
    ensures CleanIndex(l, AfterAll(cfg, l, m, events).store)
    decreases |events|
  {
    if events != [] {
      var e := events[0];
      if ChangeOf(cfg, m.db, e.call).Accepted? {
        var c := ChangeOf(cfg, m.db, e.call);
        CommitKeepsIndexClean(l, m.store, StepsOf(m.db, e.call, c.db, c.id), e.faults);
      }
      HistoryKeepsIndexClean(cfg, l, After(cfg, l, m, e), events[1..]);
    }
  }

  /** No blob lies under a slot without a user. */
  ghost predicate Tidy(db: Db, store: Store) {
    forall id | ValidId(id) && db[id - 1].Free? :: CredUnder(store, id) == None
  }

  lemma IndexWriteKeepsCreds(l: Layout, db: Db, store: Store, id: nat)
    requires ValidId(id)
    ensures CredUnder(Apply(l, store, PutIndex(db)), id) == CredUnder(store, id)
  {
  }

  lemma AddKeepsTidy(l: Layout, db: Db, db': Db, store: Store, id: nat, faults: seq<Rc>)
    requires ValidId(id) && DiffersAt(db, db', id) && db'[id - 1].Used? && CredUsable(CredAt(db', id))
    requires Tidy(db, store) && !UndoFails(faults)
    ensures var o := Commit(l, store, AddSteps(db', id), faults);
      Tidy(if o.rc == Ok then db' else db, o.store)
  {
    var index := PutIndex(db');
    var o := Commit(l, store, AddSteps(db', id), faults);
    if CredAt(db', id).None? {
      CommitOne(l, store, Step(index, []), faults);
      forall k | ValidId(k)
        ensures CredUnder(o.store, k) == CredUnder(store, k)
      {
        IndexWriteKeepsCreds(l, db', store, k);
      }
    } else {
      var blob := PutCred(id, CredAt(db', id).value);
      var drop := DropCred(id);
      var first := Apply(l, store, blob);
      CommitTwo(l, store, Step(blob, []), Step(index, [drop]), faults);
      UndoOne(l, first, drop, Rest(Rest(faults)), Next(Rest(faults)));
      forall k | ValidId(k)
        ensures k != id ==> CredUnder(o.store, k) == CredUnder(store, k)
        ensures k == id && o.rc != Ok ==> CredUnder(o.store, k) in {None, CredUnder(store, k)}
      {
        CredWriteIsLocal(l, store, blob, k);
        CredWriteIsLocal(l, first, drop, k);
        IndexWriteKeepsCreds(l, db', first, k);
      }
    }
  }

  lemma DeleteKeepsTidy(l: Layout, db: Db, db': Db, store: Store, id: nat, faults: seq<Rc>)
    requires ValidId(id) && DiffersAt(db, db', id) && db[id - 1].Used?
    requires CredAt(db, id).None? ==> CredUnder(store, id) == None
    requires Tidy(db, store)
    ensures var o := Commit(l, store, DeleteSteps(db, db', id), faults);
      Tidy(if o.rc == Ok then db' else db, o.store)
  {
    var first := Apply(l, store, PutIndex(db'));
    var drop := DropCred(id);
    var o := Commit(l, store, DeleteSteps(db, db', id), faults);
    if CredAt(db, id).None? {
      CommitOne(l, store, Step(PutIndex(db'), []), faults);
    } else {
      CommitTwo(l, store, Step(PutIndex(db'), []), Step(drop, [PutIndex(db)]), faults);
      UndoOne(l, first, PutIndex(db), Rest(Rest(faults)), Next(Rest(faults)));
    }
    forall k | ValidId(k)
      ensures k != id ==> CredUnder(o.store, k) == CredUnder(store, k)
      ensures k == id && o.rc == Ok ==> CredUnder(o.store, k) == None
    {
      IndexWriteKeepsCreds(l, db', store, k);
      IndexWriteKeepsCreds(l, db, first, k);
      CredWriteIsLocal(l, first, drop, k);
    }
  }

  lemma UpdateKeepsTidy(l: Layout, db: Db, db': Db, store: Store, id: nat, w: Write, faults: seq<Rc>)
    requires ValidId(id) && DiffersAt(db, db', id) && db[id - 1].Used? && db'[id - 1].Used?
    requires ValidWrite(w) && (w.PutIndex? || w.id == id) && (w.PutCred? ==> CredUsable(Some(w.cred)))
    requires Tidy(db, store)
    ensures var o := Commit(l, store, [Step(w, [])], faults);
      Tidy(if o.rc == Ok then db' else db, o.store)
  {
    CommitOne(l, store, Step(w, []), faults);
    forall k | ValidId(k) && k != id
      ensures CredUnder(Apply(l, store, w), k) == CredUnder(store, k)
    {
      if w.PutIndex? {
        IndexWriteKeepsCreds(l, w.db, store, k);
      } else {
        CredWriteIsLocal(l, store, w, k);
      }
    }
  }

  ghost predicate StaysTidy(cfg: Config, l: Layout, db: Db, store: Store, call: Call, faults: seq<Rc>)
    requires ChangeOf(cfg, db, call).Accepted?
  {
    var o := CommitCall(cfg, l, db, store, call, faults);
    Tidy(if o.rc == Ok then ChangeOf(cfg, db, call).db else db, o.store)
  }

  lemma AddStaysTidy(cfg: Config, l: Layout, db: Db, store: Store, call: Call, faults: seq<Rc>)
    requires Sound(cfg) && Restorable(db) && Tidy(db, store) && !UndoFails(faults)
    requires call.Add? && ChangeOf(cfg, db, call).Accepted?
    ensures StaysTidy(cfg, l, db, store, call, faults)
  {
    var c := ChangeOf(cfg, db, call);
    AddedEntry(cfg, db, call);
    AddKeepsTidy(l, db, c.db, store, c.id, faults);
  }

  lemma DeleteStaysTidy(cfg: Config, l: Layout, db: Db, store: Store, call: Call, faults: seq<Rc>)
    requires Restorable(db) && CredsMatch(db, store) && Tidy(db, store)
    requires call.Delete? && ChangeOf(cfg, db, call).Accepted?
    ensures StaysTidy(cfg, l, db, store, call, faults)
  {
    var c := ChangeOf(cfg, db, call);
    DeletedEntry(cfg, db, call);
    assert CredMatches(db[c.id - 1], store, (c.id - 1) + 1);
    DeleteKeepsTidy(l, db, c.db, store, c.id, faults);
  }

  lemma UpdateStaysTidy(cfg: Config, l: Layout, db: Db, store: Store, call: Call, faults: seq<Rc>)
    requires Sound(cfg) && Restorable(db) && Tidy(db, store)
    requires call.SetPermissions? || call.SetCredentials?
    requires ChangeOf(cfg, db, call).Accepted?
    ensures StaysTidy(cfg, l, db, store, call, faults)
  {
    var c := ChangeOf(cfg, db, call);
    if call.SetPermissions? {
      PermissionsEntry(cfg, db, call);
      UpdateKeepsTidy(l, db, c.db, store, c.id, PutIndex(c.db), faults);
    } else {
      CredentialsEntry(cfg, db, call);
      if CredAt(c.db, c.id).Some? {
        UpdateKeepsTidy(l, db, c.db, store, c.id, PutCred(c.id, CredAt(c.db, c.id).value), faults);
      } else if CredAt(db, c.id).Some? {
        UpdateKeepsTidy(l, db, c.db, store, c.id, DropCred(c.id), faults);
      }
    }
  }

  lemma SessionsStayTidy(cfg: Config, l: Layout, db: Db, store: Store, call: Call, faults: seq<Rc>)
    requires Tidy(db, store)
    requires call.SignIn? || call.SignOut?
    requires ChangeOf(cfg, db, call).Accepted?
    ensures StaysTidy(cfg, l, db, store, call, faults)
  {
  }

  /** Unless the undoing write fails too, no call leaves a blob behind. */
  lemma CallKeepsTidy(cfg: Config, l: Layout, db: Db, store: Store, call: Call, faults: seq<Rc>)
    requires SoundLayout(l) && Sound(cfg)
    requires Agree(l, db, store) && Tidy(db, store) && !UndoFails(faults)
    requires ChangeOf(cfg, db, call).Accepted?
    ensures StaysTidy(cfg, l, db, store, call, faults)
  {
    AgreeSplits(l, db, store);
    match call {
      case Add(_, _, _, _) => AddStaysTidy(cfg, l, db, store, call, faults);
      case Delete(_, _) => DeleteStaysTidy(cfg, l, db, store, call, faults);
      case SetPermissions(_, _, _) => UpdateStaysTidy(cfg, l, db, store, call, faults);
      case SetCredentials(_, _, _, _, _) => UpdateStaysTidy(cfg, l, db, store, call, faults);
      case SignIn(_, _, _) => SessionsStayTidy(cfg, l, db, store, call, faults);
      case SignOut(_, _) => SessionsStayTidy(cfg, l, db, store, call, faults);
    }
  }

  /** No power cut, and every failed call manages to undo itself. */
  predicate Orderly(events: seq<Event>) {
    forall e | e in events :: e.Run? && !UndoFails(e.faults)
  }

  lemma OrderlyEvent(cfg: Config, l: Layout, m: Machine, e: Event)
    requires SoundLayout(l) && Sound(cfg)
    requires Agree(l, m.db, m.store) && Tidy(m.db, m.store)
    requires e.Run? && !UndoFails(e.faults)
    ensures var m' := After(cfg, l, m, e);
      Agree(l, m'.db, m'.store) && Tidy(m'.db, m'.store)
  {
    if ChangeOf(cfg, m.db, e.call).Accepted? {
      CallSides(cfg, l, m.db, m.store, e.call, e.faults);
      CallKeepsTidy(cfg, l, m.db, m.store, e.call, e.faults);
      AgreeSplits(l, m.db, m.store);
      if e.call.Add? {
        AddedEntry(cfg, m.db, e.call);
      }
    }
  }

  /**
   From blank storage, whatever calls are made and whatever storage operations fail (short
   of the undoing ones), RAM and NVM agree and no blob is left behind.
   */
  lemma {:induction false} OrderlyHistoryAgrees(cfg: Config, l: Layout, m: Machine, events: seq<Event>)
    requires SoundLayout(l) && Sound(cfg)
    requires Agree(l, m.db, m.store) && Tidy(m.db, m.store) && Orderly(events)
    ensures var m' := AfterAll(cfg, l, m, events);
      Agree(l, m'.db, m'.store) && Tidy(m'.db, m'.store)
    decreases |events|
  {
    if events != [] {
      OrderlyEvent(cfg, l, m, events[0]);
      OrderlyHistoryAgrees(cfg, l, After(cfg, l, m, events[0]), events[1..]);
    }
  }

  lemma BlankStorage(l: Layout)
    requires SoundLayout(l)
    ensures Agree(l, EMPTY_DB, map[]) && Tidy(EMPTY_DB, map[]) && CleanIndex(l, map[])
  {
    assert Inactive(EMPTY_DB) == EMPTY_DB;
  }

  /** Every add carries a credential, as every add by a non-admin must. */
  predicate CredentialledAdds(events: seq<Event>) {
    forall e | e in events && e.call.Add? :: e.call.data != []
  }

  ghost predicate NeverStranded(cfg: Config, l: Layout, m: Machine, events: seq<Event>)
    requires SoundLayout(l)
    decreases |events|
  {
    events == [] ||
    (&& (events[0].Run? ==> !Stranded(m.db, events[0].call, events[0].faults))
     && NeverStranded(cfg, l, After(cfg, l, m, events[0]), events[1..]))
  }

  /** With credentials on every add, power cuts anywhere in the history do no harm. */
  lemma {:induction false} CredentialledHistoryAgrees(cfg: Config, l: Layout, m: Machine, events: seq<Event>)
    requires SoundLayout(l) && Sound(cfg)
    requires Agree(l, m.db, m.store)
    requires CredentialledAdds(events) && NeverStranded(cfg, l, m, events)
    ensures var m' := AfterAll(cfg, l, m, events);
      Agree(l, m'.db, m'.store)
    decreases |events|
  {
    if events != [] {
      EventKeepsAgreement(cfg, l, m, events[0]);
      CredentialledHistoryAgrees(cfg, l, After(cfg, l, m, events[0]), events[1..]);
    }
  }

  /** An add to the empty database goes to slot 1. */
  lemma FirstAdd(cfg: Config, name: CString, perms: Perms, pin: seq<byte>)
    requires name != ""
    requires pin != [] ==> ProcessPin(cfg, pin).Bytes?
    ensures var cred := if pin == [] then None else Some(Cred(Pin, ProcessPin(cfg, pin).bytes));
      ChangeOf(cfg, EMPTY_DB, Add(name, perms, Pin, pin))
        == Accepted(EMPTY_DB[0 := Used(Account(StoredName(name), Clamp(perms), false, cred))], 1)
  {
    assert FirstFree(EMPTY_DB) == Some(0);
    assert Find(EMPTY_DB, name) == None;
  }

  lemma FirstAddCutShort(cfg: Config, l: Layout, name: CString, perms: Perms, pin: seq<byte>)
    requires SoundLayout(l)
    requires name != "" && pin != [] && ProcessPin(cfg, pin).Bytes?
    ensures After(cfg, l, Machine(EMPTY_DB, map[]), PowerCut(Add(name, perms, Pin, pin), [], 1))
         == Machine(EMPTY_DB, Apply(l, map[], PutCred(1, Cred(Pin, ProcessPin(cfg, pin).bytes))))
  {
    FirstAdd(cfg, name, perms, pin);
    var call := Add(name, perms, Pin, pin);
    var c := ChangeOf(cfg, EMPTY_DB, call);
    var blob := PutCred(1, Cred(Pin, ProcessPin(cfg, pin).bytes));
    CommitTwo(l, map[], Step(blob, []), Step(PutIndex(c.db), [DropCred(1)]), []);
    assert CommitCall(cfg, l, EMPTY_DB, map[], call, []).visited[0] == Apply(l, map[], blob);
  }

  lemma FirstAddBare(cfg: Config, l: Layout, store: Store, name: CString, perms: Perms)
    requires SoundLayout(l)
    requires name != ""
    ensures var db := EMPTY_DB[0 := Used(Account(StoredName(name), Clamp(perms), false, None))];
      After(cfg, l, Machine(EMPTY_DB, store), Run(Add(name, perms, Pin, []), []))
        == Machine(db, Apply(l, store, PutIndex(db)))
  {
    FirstAdd(cfg, name, perms, []);
    var c := ChangeOf(cfg, EMPTY_DB, Add(name, perms, Pin, []));
    CommitOne(l, store, Step(PutIndex(c.db), []), []);
  }

  /**
   Why the guard is needed. Cut the power between the two writes of an add, then add a
   user without a credential: RAM holds a user nobody can sign in as, and a restart gives
   that user the credential of the add that never finished.
   */
  lemma OrphanComesBack(cfg: Config, l: Layout, name: CString, perms: Perms, pin: seq<byte>, name': CString, perms': Perms)
    requires SoundLayout(l) && Sound(cfg)
    requires name != "" && name' != "" && pin != [] && ProcessPin(cfg, pin).Bytes?
    ensures var m := After(cfg, l,
                           After(cfg, l, Machine(EMPTY_DB, map[]), PowerCut(Add(name, perms, Pin, pin), [], 1)),
                           Run(Add(name', perms', Pin, []), []));
      && CredAt(m.db, 1) == None
      && Reload(l, m.store).Some?
      && CredAt(Reload(l, m.store).value, 1) == Some(Cred(Pin, ProcessPin(cfg, pin).bytes))
  {
    var cred := Cred(Pin, ProcessPin(cfg, pin).bytes);
    var store1 := Apply(l, map[], PutCred(1, cred));
    FirstAddCutShort(cfg, l, name, perms, pin);
    FirstAddBare(cfg, l, store1, name', perms');
    ResurrectedCredential(l, Account(StoredName(name'), Clamp(perms'), false, None), store1, cred);
  }

  lemma ResurrectedCredential(l: Layout, owner: Account, store: Store, cred: Cred)
    requires SoundLayout(l)
    requires |owner.name| <= MAX_NAME_LEN && owner.perms.keyIdCount <= MAX_KEY_IDS && owner.cred.None?
    requires CredUnder(store, 1) == Some(cred) && CredUsable(Some(cred))
    ensures var found := Reload(l, Apply(l, store, PutIndex(EMPTY_DB[0 := Used(owner)])));
      found.Some? && CredAt(found.value, 1) == Some(cred)
  {
    var db := EMPTY_DB[0 := Used(owner)];
    var db' := EMPTY_DB[0 := Used(owner.(cred := Some(cred)))];
    assert Records(db') == Records(db);
    assert CredsMatch(db', store);
    IndexWriteAgrees(l, db', store);
    assert Apply(l, store, PutIndex(db')) == Apply(l, store, PutIndex(db));
  }
}
