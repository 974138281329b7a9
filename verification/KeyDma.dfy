/**
 The key cache and key export requests over DMA (src/wh_client.c) and the slot that keeps
 their buffer mapped between request and response (src/wh_client_dma.c).
 */
module KeyDma {
  import opened Codes
  import opened Comm
  import opened Dma

  const KEYID_ERASED := 0

  /** What the caller asks for: where the key is, or where it goes. */
  datatype Ask =
    | CacheKey(id: nat, flags: nat, addr: nat, sz: nat)
    | ExportKey(id: nat, addr: nat, sz: nat)

  /** What goes out: the same, with the address the server can reach. */
  datatype Wire = Wire(ask: Ask, xformed: nat)

  function Dir(ask: Ask): Direction {
    if ask.CacheKey? then ReadDir else WriteDir
  }

  /** The slot; size zero means empty. */
  datatype Slot = Slot(xformed: nat, client: nat, sz: nat, post: Direction)

  const EMPTY := Slot(0, 0, 0, ReadDir)

  function SlotMapping(slot: Slot): Mapping {
    Mapping(slot.client, slot.xformed, slot.sz, slot.post)
  }

  ghost function SlotHolds(slot: Slot): Ledger {
    if slot.sz > 0 then Holding(SlotMapping(slot)) else NothingHeld()
  }

  /** The slot a mapped buffer fills. */
  function Filled(ask: Ask, xformed: nat): Slot {
    if ask.sz == 0 then EMPTY else Slot(xformed, ask.addr, ask.sz, Dir(ask))
  }

  // ------------------------------------------------------- the protocol as a machine

  datatype State = State(link: Link<Wire>, slot: Slot, log: seq<DmaCall>, pres: seq<PreEvent>)

  datatype Op = Request(ask: Ask) | Response

  function Refused(st: State, ask: Ask): bool {
    (ask.ExportKey? && ask.id == KEYID_ERASED) || st.link.pending
  }

  /** The address and result of mapping the buffer; an empty buffer is not mapped. */
  function Translate(st: State, ask: Ask): (Rc, nat) {
    if ask.sz == 0 then (Ok, 0) else PreResult(st.pres, ask.addr)
  }

  function Requested(st: State, ask: Ask): State {
    if Refused(st, ask) then st
    else
      var pres := if ask.sz == 0 then st.pres else Tail(st.pres);
      var t := Translate(st, ask);
      if t.0 != Ok then State(st.link, EMPTY, st.log, pres)
      else
        var slot := Filled(ask, t.1);
        var mapped := if ask.sz == 0 then st.log else st.log + [Pre(SlotMapping(slot))];
        var s := Send(st.link, Wire(ask, t.1));
        if s.rc == Ok then State(s.link, slot, mapped, pres)
        else State(s.link, EMPTY, if ask.sz == 0 then mapped else mapped + [Post(SlotMapping(slot))], pres)
  }

  function Responded(st: State): State {
    var r := Recv(st.link);
    if r.rc == NotReady then st.(link := r.link)
    else if st.slot.sz == 0 then st.(link := r.link)
    else State(r.link, EMPTY, st.log + [Post(SlotMapping(st.slot))], st.pres)
  }

  function Next(st: State, op: Op): State {
    match op
    case Request(ask) => Requested(st, ask)
    case Response => Responded(st)
  }

  function After(st: State, ops: seq<Op>): State {
    if ops == [] then st else Next(After(st, ops[..|ops| - 1]), ops[|ops| - 1])
  }

  function Fresh(sends: seq<SendEvent>, recvs: seq<RecvEvent>, pres: seq<PreEvent>): State {
    State(Link(false, [], 0, sends, recvs), EMPTY, [], pres)
  }

  // -------------------------------------------------------- released exactly once

  /** The slot records exactly what is mapped, and only while a request is pending. */
  ghost predicate Tidy(st: State) {
    && Account(st.log) == SlotHolds(st.slot)
    && (st.slot.sz > 0 ==> st.link.pending)
  }

  lemma RequestKeepsTidy(st: State, ask: Ask)
    requires Tidy(st)
    ensures Tidy(Requested(st, ask))
  {
    var t, after := Translate(st, ask), Requested(st, ask);
    if !Refused(st, ask) && t.0 == Ok && ask.sz > 0 {
      var m := SlotMapping(Filled(ask, t.1));
      Opens(st.log, m);
      Closes(st.log + [Pre(m)], m);
      if after.slot == EMPTY {
        assert after.log == st.log + [Pre(m)] + [Post(m)];
      } else {
        assert after.slot == Filled(ask, t.1) && after.log == st.log + [Pre(m)];
      }
    } else if !Refused(st, ask) {
      assert after.slot == EMPTY && after.log == st.log;
    }
  }

  lemma ResponseKeepsTidy(st: State)
    requires Tidy(st)
    ensures Tidy(Responded(st))
  {
    if st.slot.sz > 0 {
      Closes(st.log, SlotMapping(st.slot));
    }
  }

  /**
   Over every interleaving of requests, polls, replies and failures: no mapping is released
   twice, or with the wrong direction, or from an empty slot, and when nothing is pending
   every mapping has been released.
   */
  lemma {:induction false} ReleasedOnce(sends: seq<SendEvent>, recvs: seq<RecvEvent>, pres: seq<PreEvent>, ops: seq<Op>)
    ensures Tidy(After(Fresh(sends, recvs, pres), ops))
    ensures var st := After(Fresh(sends, recvs, pres), ops);
      && Account(st.log).Balanced?
      && (!st.link.pending ==> Mapped(st.log) == Unmapped(st.log))
    decreases |ops|
  {
    var st := After(Fresh(sends, recvs, pres), ops);
    if ops != [] {
      var before := After(Fresh(sends, recvs, pres), ops[..|ops| - 1]);
      ReleasedOnce(sends, recvs, pres, ops[..|ops| - 1]);
      match ops[|ops| - 1] {
        case Request(ask) => RequestKeepsTidy(before, ask);
        case Response => ResponseKeepsTidy(before);
      }
    }
    BalancedMeansMatched(st.log);
    if !st.link.pending {
      assert Unmapped(st.log) + multiset{} == Unmapped(st.log);
    }
  }

  // ------------------------------------------------------------- mapped for what it is for

  /** This entry maps or releases the buffer of that request: the server reads a key it caches and writes one it exports. */
  predicate EntryFor(call: DmaCall, ask: Ask) {
    && call.m.clientAddr == ask.addr && call.m.len == ask.sz > 0
    && (call.m.dir == ReadDir <==> ask.CacheKey?)
    && (ask.ExportKey? ==> ask.id != 0)
  }

  predicate AskedIn(ask: Ask, ops: seq<Op>) {
    exists i | 0 <= i < |ops| :: ops[i] == Request(ask)
  }

  /** One of the requests explains this entry. */
  ghost predicate HasReason(call: DmaCall, ops: seq<Op>) {
    exists ask :: AskedIn(ask, ops) && EntryFor(call, ask)
  }

  /** The slot and every ledger entry so far are explained by the requests so far. */
  ghost predicate Explained(st: State, ops: seq<Op>) {
    && (forall k | 0 <= k < |st.log| :: HasReason(st.log[k], ops))
    && (st.slot.sz > 0 ==> HasReason(Pre(SlotMapping(st.slot)), ops))
  }

  lemma ReasonStays(call: DmaCall, ops: seq<Op>, op: Op)
    requires HasReason(call, ops)
    ensures HasReason(call, ops + [op])
  {
    var ask :| AskedIn(ask, ops) && EntryFor(call, ask);
    var i :| 0 <= i < |ops| && ops[i] == Request(ask);
    assert (ops + [op])[i] == Request(ask);
    assert AskedIn(ask, ops + [op]);
  }

  lemma StillExplained(st: State, ops: seq<Op>, op: Op)
    requires Explained(st, ops)
    ensures Explained(st, ops + [op])
  {
    forall k | 0 <= k < |st.log|
      ensures HasReason(st.log[k], ops + [op])
    {
      ReasonStays(st.log[k], ops, op);
    }
    if st.slot.sz > 0 {
      ReasonStays(Pre(SlotMapping(st.slot)), ops, op);
    }
  }

  lemma NextExplained(st: State, ops: seq<Op>, op: Op)
    requires Explained(st, ops)
    ensures Explained(Next(st, op), ops + [op])
  {
    StillExplained(st, ops, op);
    if op.Request? && !Refused(st, op.ask) && Translate(st, op.ask).0 == Ok && op.ask.sz > 0 {
      assert (ops + [op])[|ops|] == Request(op.ask);
      assert AskedIn(op.ask, ops + [op]);
      var m := SlotMapping(Filled(op.ask, Translate(st, op.ask).1));
      assert EntryFor(Pre(m), op.ask) && EntryFor(Post(m), op.ask);
    } else if op.Response? && st.slot.sz > 0 {
      var ask :| AskedIn(ask, ops + [op]) && EntryFor(Pre(SlotMapping(st.slot)), ask);
      assert EntryFor(Post(SlotMapping(st.slot)), ask);
    }
  }

  /**
   Over every interleaving, each buffer mapped or released is the buffer of some request, of
   its length, for reading when a key is cached and for writing when one is exported.
   */
  lemma {:induction false} MappedForItsRequest(sends: seq<SendEvent>, recvs: seq<RecvEvent>, pres: seq<PreEvent>, ops: seq<Op>)
    ensures Explained(After(Fresh(sends, recvs, pres), ops), ops)
    decreases |ops|
  {
    if ops != [] {
      var n := |ops| - 1;
      MappedForItsRequest(sends, recvs, pres, ops[..n]);
      NextExplained(After(Fresh(sends, recvs, pres), ops[..n]), ops[..n], ops[n]);
      assert ops[..n] + [ops[n]] == ops;
    }
  }

  // -------------------------------------------------- mapped as long as the server may look

  /** The buffer of the request in flight is mapped. */
  ghost predicate Covered(st: State) {
    st.link.pending ==>
      && st.link.accepted != []
      && var w := st.link.accepted[|st.link.accepted| - 1];
      st.slot == Filled(w.ask, w.xformed)
  }

  /** A request that went out though its timer did not start, or a receive error that does not end the request. */
  predicate ReleasesEarly(st: State, op: Op) {
    match op
    case Request(ask) => !Refused(st, ask) && Translate(st, ask).0 == Ok && ask.sz > 0 && NextSend(st.link.sends).Untimed?
    case Response => st.link.pending && st.slot.sz > 0 && Lingers(NextRecv(st.link.recvs))
  }

  /** Exactly these two failures take a buffer away from a request that is still pending. */
  lemma CoveredExactly(st: State, op: Op)
    requires Tidy(st) && Covered(st)
    ensures Covered(Next(st, op)) <==> !ReleasesEarly(st, op)
  {
  }

  ghost predicate AlwaysCovered(st: State, ops: seq<Op>) {
    Covered(After(st, ops)) && (ops != [] ==> AlwaysCovered(st, ops[..|ops| - 1]))
  }

  predicate NeverEarly(st: State, ops: seq<Op>) {
    ops != [] ==> NeverEarly(st, ops[..|ops| - 1]) && !ReleasesEarly(After(st, ops[..|ops| - 1]), ops[|ops| - 1])
  }

  /** The buffer stays mapped while the server may use it, in exactly the runs without such a failure. */
  lemma {:induction false} CoveredThroughout(sends: seq<SendEvent>, recvs: seq<RecvEvent>, pres: seq<PreEvent>, ops: seq<Op>)
    ensures var st := Fresh(sends, recvs, pres); AlwaysCovered(st, ops) <==> NeverEarly(st, ops)
    decreases |ops|
  {
    if ops != [] {
      var st := Fresh(sends, recvs, pres);
      var before := ops[..|ops| - 1];
      CoveredThroughout(sends, recvs, pres, before);
      ReleasedOnce(sends, recvs, pres, before);
      if AlwaysCovered(st, before) {
        assert Covered(After(st, before));
        CoveredExactly(After(st, before), ops[|ops| - 1]);
      }
    }
  }

  // --------------------------------------------------------------------- the code

  class KeyClient {
    const comm: CommClient<Wire>
    const dma: DmaPort
    var slot: Slot

    constructor (comm: CommClient<Wire>, dma: DmaPort)
      ensures this.comm == comm && this.dma == dma && slot == EMPTY
    {
      this.comm, this.dma, slot := comm, dma, EMPTY;
    }

    ghost function Now(): State
      reads this, comm, dma
    {
      State(comm.link, slot, dma.log, dma.pres)
    }

    /** wh_Client_DmaAsyncPre: the slot is cleared first, and filled only when the mapping succeeds. */
    method AsyncPre(ask: Ask) returns (rc: Rc, xformed: nat)
      modifies this, dma
      ensures (rc, xformed) == if rc == Ok then old(Translate(Now(), ask)) else (old(Translate(Now(), ask)).0, 0)
      ensures slot == if rc == Ok then Filled(ask, xformed) else EMPTY
      ensures dma.log == if rc == Ok && ask.sz > 0 then old(dma.log) + [Pre(SlotMapping(slot))] else old(dma.log)
      ensures dma.pres == old(if ask.sz == 0 then dma.pres else Tail(dma.pres)) && dma.posts == old(dma.posts)
    {
      slot := EMPTY;
      if ask.sz == 0 {
        return Ok, 0;
      }
      rc, xformed := dma.Acquire(ask.addr, ask.sz, Dir(ask));
      if rc == Ok {
        slot := Slot(xformed, ask.addr, ask.sz, Dir(ask));
      } else {
        xformed := 0;
      }
    }

    /** wh_Client_DmaAsyncPost: an empty slot is left alone; a used one is emptied even when the release fails. */
    method AsyncPost() returns (rc: Rc)
      modifies this, dma
      ensures slot == old(if slot.sz == 0 then slot else EMPTY)
      ensures dma.log == old(if slot.sz > 0 then dma.log + [Post(SlotMapping(slot))] else dma.log)
      ensures dma.pres == old(dma.pres)
      ensures rc == old(if slot.sz == 0 then Ok else PostResult(dma.posts))
    {
      if slot.sz == 0 {
        return Ok;
      }
      rc := dma.Release(SlotMapping(slot));
      slot := EMPTY;
    }

    /** wh_Client_KeyCacheDmaRequest and wh_Client_KeyExportDmaRequest */
    method KeyRequest(ask: Ask) returns (rc: Rc)
      modifies this, comm, dma
      ensures Now() == Next(old(Now()), Request(ask))
      ensures rc == Ok ==> comm.link.pending && comm.link.accepted == old(comm.link.accepted) + [Wire(ask, old(Translate(Now(), ask)).1)]
      ensures rc != Ok && !old(Refused(Now(), ask)) ==> slot == EMPTY
      ensures ask.ExportKey? && ask.id == 0 ==> rc == BadArgs
      ensures !(ask.ExportKey? && ask.id == 0) && old(comm.link.pending) ==> rc == RequestPending
      ensures rc == Ok && ask.sz > 0 ==>
        && comm.link.accepted == old(comm.link.accepted) + [Wire(ask, slot.xformed)]
        && slot.client == ask.addr && slot.sz == ask.sz
        && dma.log == old(dma.log) + [Pre(Mapping(ask.addr, slot.xformed, ask.sz, if ask.CacheKey? then ReadDir else WriteDir))]
    {
      if ask.ExportKey? && ask.id == KEYID_ERASED {
        return BadArgs;
      }
      if comm.link.pending {
        return RequestPending;
      }
      var xformed;
      rc, xformed := AsyncPre(ask);
      if rc == Ok {
        rc := comm.SendRequest(Wire(ask, xformed));
      }
      if rc != Ok {
        var _ := AsyncPost();
      }
    }

    /** wh_Client_KeyCacheDmaResponse: a failed release does not undo a cached key. */
    method CacheResponse() returns (rc: Rc)
      modifies this, comm, dma
      ensures Now() == Next(old(Now()), Response)
      ensures rc == Outcome(Recv(old(comm.link)))
    {
      var reply;
      rc, reply := comm.RecvResponse();
      if rc == NotReady {
        return;
      }
      if rc == Ok {
        rc := ReplyCode(reply);
      }
      var _ := AsyncPost();
    }

    /** wh_Client_KeyExportDmaResponse: the release writes the key back, so its failure is the call's. */
    method ExportResponse() returns (rc: Rc)
      modifies this, comm, dma
      ensures Now() == Next(old(Now()), Response)
      ensures var code := Outcome(Recv(old(comm.link)));
        rc == if code == Ok && old(slot.sz > 0) then PostResult(old(dma.posts)) else code
    {
      var reply;
      rc, reply := comm.RecvResponse();
      if rc == NotReady {
        return;
      }
      if rc == Ok {
        rc := ReplyCode(reply);
      }
      var postRc := AsyncPost();
      if rc == Ok {
        rc := postRc;
      }
    }
  }
}
