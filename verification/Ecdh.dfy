/**
 Temporary keys of an ECDH call (_EccSharedSecretBlocking in src/wh_client_crypto.c and
 _HandleEccSharedSecret in src/wh_server_crypto.c): keys the client holds locally are
 imported for the call and evicted after it, by the server or by the client.
 */
module Ecdh {
  import opened Codes
  import opened Comm

  type KeyId = nat

  const ERASED: KeyId := 0
  const ID_MAX: KeyId := 255

  /** Which of the client's two keys goes to the server. */
  datatype Half = PublicKey | PrivateKey

  datatype Op =
    | Import(half: Half)
    | Evict(id: KeyId)
    | Secret(prv: KeyId, pub: KeyId, evictPrv: bool, evictPub: bool, cached: bool, out: KeyId)

  // --------------------------------------------------------------------- the server

  /** Keys in storage, and which accepted requests the server manages to carry out. */
  datatype Env = Env(stored: set<KeyId>, verdicts: seq<bool>)

  function Works(env: Env, k: nat): bool {
    k < |env.verdicts| ==> env.verdicts[k]
  }

  /** The highest identifier not taken; none left is ERASED. */
  function UniqueId(taken: set<KeyId>, from: KeyId): (id: KeyId)
    ensures id != ERASED ==> id !in taken && id <= from
    ensures forall k | id < k <= from :: k in taken
  {
    if from == ERASED then ERASED else if from !in taken then from else UniqueId(taken, from - 1)
  }

  /** No server handler reports that it is not ready. */
  type Code = rc: Rc | rc != NotReady witness Ok

  /** What one accepted request leaves in the key cache, and its answer. */
  datatype Answer = Answer(cache: set<KeyId>, rc: Code, id: KeyId)

  function OutputId(env: Env, cache: set<KeyId>, out: KeyId): KeyId {
    if out == ERASED then UniqueId(cache + env.stored, ID_MAX) else out
  }

  function ServeImport(env: Env, cache: set<KeyId>, works: bool): Answer {
    var id := UniqueId(cache + env.stored, ID_MAX);
    if works && id != ERASED then Answer(cache + {id}, Ok, id) else Answer(cache, NoSpace, ERASED)
  }

  /** Evicts what the options name even if the call failed, except the key just cached. */
  function ServeSecret(env: Env, cache: set<KeyId>, op: Op, works: bool): Answer
    requires op.Secret?
  {
    var loaded := works && op.prv in cache + env.stored && op.pub in cache + env.stored;
    var out := OutputId(env, cache, op.out);
    var kept := loaded && op.cached && out != ERASED;
    var grown := if kept then cache + {out} else cache;
    var pub := if op.evictPub && !(kept && out == op.pub) then {op.pub} else {};
    var prv := if op.evictPrv && !(kept && out == op.prv) then {op.prv} else {};
    Answer(grown - pub - prv, if loaded && (op.cached ==> kept) then Ok else Aborted, if kept then out else ERASED)
  }

  function Serve(env: Env, cache: set<KeyId>, op: Op, works: bool): Answer {
    match op
    case Import(_) => ServeImport(env, cache, works)
    case Evict(id) => Answer(cache - {id}, if id in cache then Ok else NotFound, ERASED)
    case Secret(_, _, _, _, _, _) => ServeSecret(env, cache, op, works)
  }

  // ---------------------------------------------------------------- one round trip

  datatype State = State(link: Link<Op>, answer: Answer)

  datatype Step = Step(st: State, rc: Rc, id: KeyId)

  /** The transport will not take a request now. */
  predicate Unsendable(st: State) {
    st.link.pending || NextSend(st.link.sends).Refuses?
  }

  /** Send; an accepted request is carried out, even when the client is told otherwise. */
  function Dispatch(env: Env, st: State, op: Op): Step {
    var s := Send(st.link, op);
    var answer := if Unsendable(st) then st.answer
                  else Serve(env, st.answer.cache, op, Works(env, |st.link.accepted|));
    Step(State(s.link, answer), s.rc, ERASED)
  }

  /** Poll until there is an outcome. */
  function Await(st: State): (step: Step)
    requires st.link.pending
    ensures step.st.answer == st.answer && step.st.link.accepted == st.link.accepted
    ensures step.rc == Ok ==> st.answer.rc == Ok && step.id == st.answer.id
    decreases |st.link.recvs|
  {
    var r := Recv(st.link);
    if r.rc == NotReady then Await(State(r.link, st.answer))
    else
      var rc := if Outcome(r) != Ok then Outcome(r) else st.answer.rc;
      Step(State(r.link, st.answer), rc, if rc == Ok then st.answer.id else ERASED)
  }

  function Trip(env: Env, st: State, op: Op): Step {
    var d := Dispatch(env, st, op);
    if d.rc == Ok then Await(d.st) else d
  }

  // --------------------------------------------------------------- the blocking call

  /** A key held by the client is imported; a key held by the server is used as it is. */
  function Obtain(env: Env, st: State, key: KeyId, half: Half): Step {
    if key == ERASED then Trip(env, st, Import(half)) else Step(st, Ok, key)
  }

  function Cleanup(env: Env, st: State, temp: bool, id: KeyId): State {
    if temp then Trip(env, st, Evict(id)).st else st
  }

  datatype Args = Args(pub: KeyId, prv: KeyId, cached: bool, out: KeyId)

  function Request(a: Args, pub: Step, prv: Step): Op {
    Secret(prv.id, pub.id, a.prv == ERASED, a.pub == ERASED, a.cached, a.out)
  }

  function SharedSecret(env: Env, st: State, a: Args): Step {
    var pub := Obtain(env, st, a.pub, PublicKey);
    if pub.rc != Ok then Step(pub.st, pub.rc, ERASED)
    else
      var prv := Obtain(env, pub.st, a.prv, PrivateKey);
      if prv.rc != Ok then Step(Cleanup(env, prv.st, a.pub == ERASED, pub.id), prv.rc, ERASED)
      else
        var d := Dispatch(env, prv.st, Request(a, pub, prv));
        if d.rc == Ok then Await(d.st)
        else
          var cleaned := Cleanup(env, Cleanup(env, d.st, a.pub == ERASED, pub.id), a.prv == ERASED, prv.id);
          Step(cleaned, d.rc, ERASED)
  }

  // -------------------------------------------------------------- when keys are left

  /** A good response comes in before anything else ends or breaks the request. */
  predicate Heard(recvs: seq<RecvEvent>) {
    match NextRecv(recvs)
    case NotYet => Heard(Tail(recvs))
    case Stale => Heard(Tail(recvs))
    case Delivered(reply) => reply == Good
    case _ => false
  }

  /**
   The server will take the import and has an identifier to give, but the response timer does
   not start or no good response follows: the client never learns the identifier.
   */
  predicate ImportLost(env: Env, st: State) {
    && !Unsendable(st) && Works(env, |st.link.accepted|)
    && UniqueId(st.answer.cache + env.stored, ID_MAX) != ERASED
    && (NextSend(st.link.sends).Untimed? || !Heard(st.link.recvs))
  }

  /** The failures that strand a temporary key: a lost import, or an eviction that cannot be sent. */
  predicate Strands(env: Env, st: State, a: Args) {
    var pub := Obtain(env, st, a.pub, PublicKey);
    var prv := Obtain(env, pub.st, a.prv, PrivateKey);
    if pub.rc != Ok then ImportLost(env, st)
    else if prv.rc != Ok then
      ImportLost(env, pub.st) || (a.pub == ERASED && Unsendable(prv.st))
    else
      var d := Dispatch(env, prv.st, Request(a, pub, prv));
      var after := Cleanup(env, d.st, a.pub == ERASED, pub.id);
      && Unsendable(prv.st)
      && ((a.pub == ERASED && Unsendable(d.st)) || (a.prv == ERASED && Unsendable(after)))
  }

  /** The last thing the server carried out was the key agreement itself. */
  predicate Agreed(st: State) {
    st.link.accepted != [] && st.link.accepted[|st.link.accepted| - 1].Secret?
  }

  /** The cache is as it began, but for the output key that was asked for. */
  predicate Conserved(before: set<KeyId>, st: State, a: Args) {
    var now := st.answer;
    || now.cache == before
    || (Agreed(st) && a.cached && now.cache == before + {now.id} && now.id != ERASED && (a.out != ERASED ==> now.id == a.out))
  }

  /** A round trip reaches the server exactly when the request can be sent, whatever the client is told. */
  lemma TripReaches(env: Env, st: State, op: Op)
    ensures var t := Trip(env, st, op);
      && (Unsendable(st) ==> t.st.answer == st.answer && t.st.link.accepted == st.link.accepted && t.rc != Ok)
      && (!Unsendable(st) ==>
            && t.st.answer == Serve(env, st.answer.cache, op, Works(env, |st.link.accepted|))
            && t.st.link.accepted == st.link.accepted + [op])
      && (t.rc == Ok ==> t.st.answer.rc == Ok && t.id == t.st.answer.id)
  {
  }

  /** Polling for a request just sent succeeds exactly when a good response comes and the server agreed. */
  lemma {:induction false} AwaitHears(st: State)
    requires st.link.pending && st.link.lastReq == |st.link.accepted|
    ensures Await(st).rc == Ok <==> Heard(st.link.recvs) && st.answer.rc == Ok
    decreases |st.link.recvs|
  {
    var r := Recv(st.link);
    if r.rc == NotReady {
      AwaitHears(State(r.link, st.answer));
    }
  }

  /** That guard is what it takes for an import to fail and yet leave a key. */
  lemma LostImportLeavesAKey(env: Env, st: State, half: Half)
    ensures var t := Trip(env, st, Import(half));
      ImportLost(env, st) <==> t.rc != Ok && t.st.answer.cache != st.answer.cache
  {
    TripReaches(env, st, Import(half));
    var d := Dispatch(env, st, Import(half));
    var id := UniqueId(st.answer.cache + env.stored, ID_MAX);
    assert id != ERASED ==> id in st.answer.cache + {id} && id !in st.answer.cache;
    if d.rc == Ok {
      AwaitHears(d.st);
    }
  }

  /** An import that succeeds adds one new key; one that fails adds none, unless its answer was lost. */
  lemma ImportAdds(env: Env, st: State, half: Half)
    ensures var t := Trip(env, st, Import(half));
      var before, after := st.answer.cache, t.st.answer.cache;
      && (t.rc == Ok ==> t.id !in before && t.id !in env.stored && t.id != ERASED && after == before + {t.id} && !Agreed(t.st))
      && (t.rc != Ok && !ImportLost(env, st) ==> after == before)
      && (ImportLost(env, st) ==> before < after && !Agreed(t.st))
  {
    LostImportLeavesAKey(env, st, half);
    TripReaches(env, st, Import(half));
  }

  lemma CleanupTakes(env: Env, st: State, id: KeyId)
    ensures var after := Cleanup(env, st, true, id);
      && after.answer.cache == (if Unsendable(st) then st.answer.cache else st.answer.cache - {id})
      && (if Unsendable(st) then after.link.accepted == st.link.accepted else !Agreed(after))
  {
    TripReaches(env, st, Evict(id));
  }

  ghost function Temps(a: Args, pub: KeyId, prv: KeyId): set<KeyId> {
    (if a.pub == ERASED then {pub} else {}) + (if a.prv == ERASED then {prv} else {})
  }

  /** Carried out, the request takes its temporary keys with it, whether or not it succeeds. */
  lemma SecretTakesTemps(env: Env, before: set<KeyId>, a: Args, pub: KeyId, prv: KeyId, works: bool)
    requires Temps(a, pub, prv) !! before
    ensures var op := Secret(prv, pub, a.prv == ERASED, a.pub == ERASED, a.cached, a.out);
      var now := ServeSecret(env, before + Temps(a, pub, prv), op, works);
      || now.cache == before
      || (a.cached && now.cache == before + {now.id} && now.id != ERASED && (a.out != ERASED ==> now.id == a.out))
  {
    var op := Secret(prv, pub, a.prv == ERASED, a.pub == ERASED, a.cached, a.out);
    var now := ServeSecret(env, before + Temps(a, pub, prv), op, works);
    if now.id != ERASED {
      assert now.cache == before + {now.id};
    } else {
      assert now.cache == before;
    }
  }

  /** What the imports leave. */
  lemma ObtainAdds(env: Env, st: State, key: KeyId, half: Half)
    ensures var t := Obtain(env, st, key, half);
      && (t.rc == Ok && key == ERASED ==> t.id !in st.answer.cache && t.st.answer.cache == st.answer.cache + {t.id} && !Agreed(t.st))
      && (t.rc == Ok && key != ERASED ==> t == Step(st, Ok, key))
      && (t.rc == Ok ==> t.id != ERASED)
  {
    ImportAdds(env, st, half);
  }

  /**
   A call leaves no temporary key behind unless an import was lost or an eviction could not
   be sent; and in those cases it does.
   */
  lemma Conservation(env: Env, st: State, a: Args)
    ensures Conserved(st.answer.cache, SharedSecret(env, st, a).st, a) <==> !Strands(env, st, a)
  {
    var pub := Obtain(env, st, a.pub, PublicKey);
    ObtainAdds(env, st, a.pub, PublicKey);
    if pub.rc != Ok {
      ImportAdds(env, st, PublicKey);
    } else {
      var prv := Obtain(env, pub.st, a.prv, PrivateKey);
      ObtainAdds(env, pub.st, a.prv, PrivateKey);
      if prv.rc != Ok {
        SecondImportFailed(env, st, a, pub, prv);
      } else {
        BothObtained(env, st, a, pub, prv);
      }
    }
  }

  /** A response timeout on the first import is enough. */
  lemma TimeoutStrands()
    ensures var env := Env({}, []);
      var st := State(Link(false, [], 0, [], [Expired]), Answer({}, Ok, ERASED));
      var a := Args(ERASED, ERASED, false, ERASED);
      Strands(env, st, a) && SharedSecret(env, st, a).st.answer.cache == {ID_MAX}
  {
    var env := Env({}, []);
    var st := State(Link(false, [], 0, [], [Expired]), Answer({}, Ok, ERASED));
    TripReaches(env, st, Import(PublicKey));
    var d := Dispatch(env, st, Import(PublicKey));
    assert d.rc == Ok && Recv(d.st.link).rc == Timeout;
    assert UniqueId({}, ID_MAX) == ID_MAX;
  }

  lemma SecondImportFailed(env: Env, st: State, a: Args, pub: Step, prv: Step)
    requires pub == Obtain(env, st, a.pub, PublicKey) && pub.rc == Ok
    requires prv == Obtain(env, pub.st, a.prv, PrivateKey) && prv.rc != Ok
    ensures Conserved(st.answer.cache, SharedSecret(env, st, a).st, a) <==> !Strands(env, st, a)
  {
    ObtainAdds(env, st, a.pub, PublicKey);
    ImportAdds(env, pub.st, PrivateKey);
    if a.pub == ERASED {
      CleanupTakes(env, prv.st, pub.id);
    }
  }

  lemma BothObtained(env: Env, st: State, a: Args, pub: Step, prv: Step)
    requires pub == Obtain(env, st, a.pub, PublicKey) && pub.rc == Ok
    requires prv == Obtain(env, pub.st, a.prv, PrivateKey) && prv.rc == Ok
    ensures Conserved(st.answer.cache, SharedSecret(env, st, a).st, a) <==> !Strands(env, st, a)
  {
    ObtainAdds(env, st, a.pub, PublicKey);
    ObtainAdds(env, pub.st, a.prv, PrivateKey);
    assert prv.st.answer.cache == st.answer.cache + Temps(a, pub.id, prv.id);
    EvictedByOneSide(env, st, a, pub, prv);
    if Unsendable(prv.st) {
      HandEvictions(env, st.answer.cache, a, pub, prv);
    } else {
      SecretTakesTemps(env, st.answer.cache, a, pub.id, prv.id, Works(env, |prv.st.link.accepted|));
    }
  }

  /** The state after the client's own evictions. */
  function Evicted(env: Env, a: Args, pub: Step, prv: Step): State {
    var d := Dispatch(env, prv.st, Request(a, pub, prv));
    Cleanup(env, Cleanup(env, d.st, a.pub == ERASED, pub.id), a.prv == ERASED, prv.id)
  }

  lemma HandEvictions(env: Env, before: set<KeyId>, a: Args, pub: Step, prv: Step)
    requires Unsendable(prv.st) && prv.st.answer.cache == before + Temps(a, pub.id, prv.id)
    requires Temps(a, pub.id, prv.id) !! before
    requires (a.pub == ERASED || a.prv == ERASED ==> !Agreed(prv.st)) && (a.pub == ERASED && a.prv == ERASED ==> pub.id != prv.id)
    ensures var d := Dispatch(env, prv.st, Request(a, pub, prv));
      var once := Cleanup(env, d.st, a.pub == ERASED, pub.id);
      var stuck := (a.pub == ERASED && Unsendable(d.st)) || (a.prv == ERASED && Unsendable(once));
      Conserved(before, Evicted(env, a, pub, prv), a) <==> !stuck
  {
    var d := Dispatch(env, prv.st, Request(a, pub, prv));
    var once := Cleanup(env, d.st, a.pub == ERASED, pub.id);
    if a.pub == ERASED { CleanupTakes(env, d.st, pub.id); }
    if a.prv == ERASED { CleanupTakes(env, once, prv.id); }
  }

  /** The client's evictions that can be sent. */
  function ByHand(env: Env, a: Args, pub: Step, prv: Step): seq<Op> {
    var d := Dispatch(env, prv.st, Request(a, pub, prv));
    var once := Cleanup(env, d.st, a.pub == ERASED, pub.id);
    (if a.pub == ERASED && !Unsendable(d.st) then [Evict(pub.id)] else []) +
    (if a.prv == ERASED && !Unsendable(once) then [Evict(prv.id)] else [])
  }

  /**
   One side evicts: either the server carries out the request, with its evict options, and the
   client evicts nothing; or the request never reached it and the client evicts each key once.
   */
  lemma EvictedByOneSide(env: Env, st: State, a: Args, pub: Step, prv: Step)
    requires pub == Obtain(env, st, a.pub, PublicKey) && pub.rc == Ok
    requires prv == Obtain(env, pub.st, a.prv, PrivateKey) && prv.rc == Ok
    ensures var after := SharedSecret(env, st, a).st;
      if Unsendable(prv.st) then
        after == Evicted(env, a, pub, prv) && after.link.accepted == prv.st.link.accepted + ByHand(env, a, pub, prv)
      else
        && after.link.accepted == prv.st.link.accepted + [Request(a, pub, prv)]
        && after.answer == Serve(env, prv.st.answer.cache, Request(a, pub, prv), Works(env, |prv.st.link.accepted|))
  {
    var d := Dispatch(env, prv.st, Request(a, pub, prv));
    TripReaches(env, prv.st, Request(a, pub, prv));
    if d.rc != Ok {
      var once := Cleanup(env, d.st, a.pub == ERASED, pub.id);
      TripReaches(env, d.st, Evict(pub.id));
      TripReaches(env, once, Evict(prv.id));
      if Unsendable(prv.st) {
        ByHandIsSent(env, a, pub, prv);
      } else {
        assert d.st.link.pending;
      }
    }
  }

  lemma ByHandIsSent(env: Env, a: Args, pub: Step, prv: Step)
    requires Unsendable(prv.st)
    ensures Evicted(env, a, pub, prv).link.accepted == prv.st.link.accepted + ByHand(env, a, pub, prv)
  {
    var d := Dispatch(env, prv.st, Request(a, pub, prv));
    var once := Cleanup(env, d.st, a.pub == ERASED, pub.id);
    TripReaches(env, d.st, Evict(pub.id));
    TripReaches(env, once, Evict(prv.id));
    assert prv.st.link.accepted + [] == prv.st.link.accepted;
  }

  // ------------------------------------------------------------ what the server is asked

  lemma ImportAsked(env: Env, st: State, half: Half)
    requires Trip(env, st, Import(half)).rc == Ok
    ensures Trip(env, st, Import(half)).st.link.accepted == st.link.accepted + [Import(half)]
  {
    TripReaches(env, st, Import(half));
  }

  /** Both keys on the server: it is asked for exactly the agreement of this private and this public key. */
  lemma ServerKeysAsked(env: Env, st: State, a: Args)
    requires a.pub != ERASED && a.prv != ERASED && !Unsendable(st)
    ensures SharedSecret(env, st, a).st.link.accepted
         == st.link.accepted + [Secret(a.prv, a.pub, false, false, a.cached, a.out)]
  {
    var op := Secret(a.prv, a.pub, false, false, a.cached, a.out);
    TripReaches(env, st, op);
    assert Request(a, Step(st, Ok, a.pub), Step(st, Ok, a.prv)) == op;
  }

  /** The public key at the client: it is imported, used under the identifier it got, and evicted by the server. */
  lemma PublicImportAsked(env: Env, st: State, a: Args)
    requires a.pub == ERASED && a.prv != ERASED
    requires var t := Trip(env, st, Import(PublicKey)); t.rc == Ok && !Unsendable(t.st)
    ensures var k := Trip(env, st, Import(PublicKey)).id;
      SharedSecret(env, st, a).st.link.accepted
        == st.link.accepted + [Import(PublicKey), Secret(a.prv, k, false, true, a.cached, a.out)]
  {
    var t := Trip(env, st, Import(PublicKey));
    ImportAsked(env, st, PublicKey);
    var op := Secret(a.prv, t.id, false, true, a.cached, a.out);
    TripReaches(env, t.st, op);
    assert Request(a, t, Step(t.st, Ok, a.prv)) == op;
    assert st.link.accepted + [Import(PublicKey)] + [op] == st.link.accepted + [Import(PublicKey), op];
  }

  lemma PrivateImportAsked(env: Env, st: State, a: Args)
    requires a.pub != ERASED && a.prv == ERASED
    requires var t := Trip(env, st, Import(PrivateKey)); t.rc == Ok && !Unsendable(t.st)
    ensures var k := Trip(env, st, Import(PrivateKey)).id;
      SharedSecret(env, st, a).st.link.accepted
        == st.link.accepted + [Import(PrivateKey), Secret(k, a.pub, true, false, a.cached, a.out)]
  {
    var t := Trip(env, st, Import(PrivateKey));
    ImportAsked(env, st, PrivateKey);
    var op := Secret(t.id, a.pub, true, false, a.cached, a.out);
    TripReaches(env, t.st, op);
    assert Request(a, Step(st, Ok, a.pub), t) == op;
    assert st.link.accepted + [Import(PrivateKey)] + [op] == st.link.accepted + [Import(PrivateKey), op];
  }

  /** Both at the client: the public key goes first, each is used under its own identifier. */
  lemma BothImportsAsked(env: Env, st: State, a: Args)
    requires a.pub == ERASED && a.prv == ERASED
    requires var t := Trip(env, st, Import(PublicKey));
      var u := Trip(env, t.st, Import(PrivateKey));
      t.rc == Ok && u.rc == Ok && !Unsendable(u.st)
    ensures var t := Trip(env, st, Import(PublicKey));
      var u := Trip(env, t.st, Import(PrivateKey));
      SharedSecret(env, st, a).st.link.accepted
        == st.link.accepted + [Import(PublicKey), Import(PrivateKey), Secret(u.id, t.id, true, true, a.cached, a.out)]
  {
    var t := Trip(env, st, Import(PublicKey));
    var u := Trip(env, t.st, Import(PrivateKey));
    ImportAsked(env, st, PublicKey);
    ImportAsked(env, t.st, PrivateKey);
    var op := Secret(u.id, t.id, true, true, a.cached, a.out);
    TripReaches(env, u.st, op);
    assert Request(a, t, u) == op;
    var sent := st.link.accepted;
    assert sent + [Import(PublicKey)] + [Import(PrivateKey)] + [op] == sent + [Import(PublicKey), Import(PrivateKey), op];
  }

  /** Without a failure of the link, the call's result is the server's answer to that agreement. */
  lemma AnsweredByServer(env: Env, st: State, a: Args)
    requires a.pub != ERASED && a.prv != ERASED && Calm(st.link)
    ensures var out := SharedSecret(env, st, a);
      var ok := Works(env, |st.link.accepted|) && {a.prv, a.pub} <= st.answer.cache + env.stored;
      && (out.rc == Ok ==> ok && out.id == out.st.answer.id)
      && (ok && !a.cached ==> out.rc == Ok && out.id == ERASED)
      && (ok && a.cached && a.out != ERASED ==> out.rc == Ok && out.id == a.out && a.out in out.st.answer.cache)
  {
    var op := Request(a, Step(st, Ok, a.pub), Step(st, Ok, a.prv));
    var d := Dispatch(env, st, op);
    AwaitHears(d.st);
  }

  // --------------------------------------------------------------------- the code

  /** A client, and the key cache of the server at the other end. */
  class EccClient {
    const comm: CommClient<Op>
    const env: Env
    var answer: Answer

    constructor (comm: CommClient<Op>, env: Env, cache: set<KeyId>)
      ensures this.comm == comm && this.env == env && answer == Answer(cache, Ok, ERASED)
    {
      this.comm, this.env, answer := comm, env, Answer(cache, Ok, ERASED);
    }

    ghost function Now(): State
      reads this, comm
    {
      State(comm.link, answer)
    }

    /** Send a request; the server carries out what it receives. */
    method SendOp(op: Op) returns (rc: Rc)
      modifies this, comm
      ensures Step(Now(), rc, ERASED) == Dispatch(env, old(Now()), op)
    {
      var k := |comm.link.accepted|;
      rc := comm.SendRequest(op);
      if |comm.link.accepted| > k {
        answer := Serve(env, answer.cache, op, Works(env, k));
      }
    }

    /** Poll until the response is in. */
    method AwaitOp() returns (rc: Rc, id: KeyId)
      requires comm.link.pending
      modifies comm
      ensures Step(Now(), rc, id) == Await(old(Now()))
    {
      ghost var goal := Await(Now());
      rc, id := NotReady, ERASED;
      while rc == NotReady
        invariant rc == NotReady ==> comm.link.pending && Await(Now()) == goal
        invariant rc != NotReady ==> Step(Now(), rc, id) == goal
        decreases |comm.link.recvs|, rc == NotReady
      {
        var reply;
        rc, reply := comm.RecvResponse();
        if rc == Ok {
          rc := ReplyCode(reply);
          if rc == Ok {
            rc := answer.rc;
          }
        }
        id := if rc == Ok then answer.id else ERASED;
      }
    }

    /** wh_Client_EccImportKey and wh_Client_KeyEvict */
    method RoundTrip(op: Op) returns (rc: Rc, id: KeyId)
      modifies this, comm
      ensures Step(Now(), rc, id) == Trip(env, old(Now()), op)
    {
      id := ERASED;
      rc := SendOp(op);
      if rc == Ok {
        rc, id := AwaitOp();
      }
    }

    /** _EccSharedSecretBlocking */
    method SharedSecretBlocking(a: Args) returns (rc: Rc, id: KeyId)
      modifies this, comm
      ensures Step(Now(), rc, id) == SharedSecret(env, old(Now()), a)
      ensures a.prv != ERASED && a.pub != ERASED && !Unsendable(old(Now())) ==>
        comm.link.accepted == old(comm.link.accepted) + [Secret(a.prv, a.pub, false, false, a.cached, a.out)]
    {
      if a.prv != ERASED && a.pub != ERASED && !Unsendable(Now()) {
        ServerKeysAsked(env, Now(), a);
      }
      var pubId, prvId, pubEvict, prvEvict := a.pub, a.prv, false, false;
      rc, id := Ok, ERASED;
      if pubId == ERASED {
        rc, pubId := RoundTrip(Import(PublicKey));
        pubEvict := rc == Ok;
      }
      if rc == Ok && prvId == ERASED {
        rc, prvId := RoundTrip(Import(PrivateKey));
        prvEvict := rc == Ok;
      }
      if rc == Ok {
        rc := SendOp(Secret(prvId, pubId, prvEvict, pubEvict, a.cached, a.out));
        if rc == Ok {
          pubEvict, prvEvict := false, false;
          rc, id := AwaitOp();
        }
      }
      if pubEvict {
        var _, _ := RoundTrip(Evict(pubId));
      }
      if prvEvict {
        var _, _ := RoundTrip(Evict(prvId));
      }
    }
  }
}
