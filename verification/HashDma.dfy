/**
 The DMA hash calls (wh_Client_Sha256Dma* and their copies, _Sha3Dma*): at most one
 topped-up block travels inline, every other whole block is read by the server from
 client memory that stays mapped until the response.
 */
module HashDma {
  import opened Codes
  import opened Blocks
  import opened HashSpec
  import opened HashServer
  import opened HashClient
  import opened HashCalls
  import opened Comm
  import opened Dma
  import SlotRuns

  function SlotMapping(slot: ShaSlot): Mapping {
    Mapping(slot.clientAddr, slot.ioAddr, slot.ioSz, ReadDir)
  }

  /** What the slot says is mapped. */
  ghost function SlotHolds(slot: ShaSlot): Ledger {
    if slot.ioSz > 0 then Holding(SlotMapping(slot)) else NothingHeld()
  }

  /** The slot records exactly what is mapped, and only while a request is pending. */
  ghost predicate Tidy<S>(client: Client<S>)
    reads client, client.comm, client.dma
  {
    && Account(client.dma.log) == SlotHolds(client.shaSlot)
    && (client.shaSlot.ioSz > 0 ==> client.comm.link.pending)
  }

  /** The slot as the run theorems of SlotRuns see it: how many bytes are mapped. */
  function ShaKind<S>(): SlotRuns.Kind<Request<S>, nat> {
    SlotRuns.Kind((r: Request<S>) => |r.dma|, 0)
  }

  ghost function View<S>(client: Client<S>): SlotRuns.State<Request<S>, nat>
    reads client, client.comm
  {
    SlotRuns.State(client.comm.link, client.shaSlot.ioSz)
  }

  /** Whether mapping the blocks of this request succeeds. */
  function Mappable<S>(req: Request<S>, pres: seq<PreEvent>, addr: nat): bool {
    req.dma == [] || PreResult(pres, addr).0 == Ok
  }

  /** The completed partial block, when there is one. */
  function InlinePart<S>(alg: Alg<S>, pending: seq<byte>, input: seq<byte>): seq<byte> {
    if 0 < |pending| < alg.B() <= |pending| + |input| then (pending + input)[..alg.B()] else []
  }

  /** The whole blocks after it. */
  function DmaPart<S>(alg: Alg<S>, pending: seq<byte>, input: seq<byte>): seq<byte>
    requires |pending| < alg.B()
  {
    var n := Whole(|pending| + |input|, alg.B());
    if InlinePart(alg, pending, input) == [] then (pending + input)[..n]
    else
      OneBlockFits(|pending| + |input|, alg.B());
      (pending + input)[alg.B()..n]
  }

  lemma OneBlockFits(n: nat, b: nat)
    requires 0 < b <= n
    ensures Whole(n, b) >= b
  {
    WholeIsAligned(n, b);
    if Whole(n, b) < b {
      SmallIsItsRemainder(Whole(n, b), b);
    }
  }

  /** Inline and mapped bytes together are what an inline update would send. */
  lemma PartsAreWire<S>(alg: Alg<S>, pending: seq<byte>, input: seq<byte>)
    requires |pending| < alg.B()
    ensures InlinePart(alg, pending, input) + DmaPart(alg, pending, input) == WireBytes(alg, pending + input)
    ensures |InlinePart(alg, pending, input)| % alg.B() == 0 && |DmaPart(alg, pending, input)| % alg.B() == 0
    ensures |InlinePart(alg, pending, input)| <= alg.B() && |DmaPart(alg, pending, input)| <= |input|
  {
    var n := Whole(|pending| + |input|, alg.B());
    WholeIsAligned(|pending| + |input|, alg.B());
    if InlinePart(alg, pending, input) != [] {
      OneBlockFits(|pending| + |input|, alg.B());
      AlignedMinusBlock(n, alg.B());
      DivModUnique(alg.B(), alg.B(), 1, 0);
    } else if |pending| > 0 {
      SmallIsItsRemainder(|pending| + |input|, alg.B());
    }
  }

  /** How far topping up the partial block got: not begun, block completed, or input used up. */
  ghost predicate ToppedUp<S>(alg: Alg<S>, pending: seq<byte>, input: seq<byte>, inlined: seq<byte>, rest: seq<byte>, from: nat)
    requires from <= |input|
  {
    || (pending == [] && from == 0 && inlined == [] && rest == [])
    || (0 < |pending| < |inlined| == |pending| + from == alg.B() && inlined == pending + input[..from] && rest == [])
    || (pending != [] && |rest| < alg.B() && from == |input| && inlined == [] && rest == pending + input)
  }

  /** Where the mapped stretch starts and what it leaves, once the inline block is set aside. */
  ghost predicate SetAside<S>(alg: Alg<S>, pending: seq<byte>, input: seq<byte>, inlined: seq<byte>, rest: seq<byte>, from: nat)
    requires |pending| < alg.B() && from <= |input|
  {
    var dmaSz := Whole(|input| - from, alg.B());
    && inlined == InlinePart(alg, pending, input)
    && input[from..from + dmaSz] == DmaPart(alg, pending, input)
    && rest + input[from + dmaSz..] == WaitingBytes(alg, pending + input)
    && |rest| + (|input| - (from + dmaSz)) < alg.B()
  }

  method CompleteBlock<S(!new)>(sha: Context<S>, input: seq<byte>) returns (inlined: seq<byte>, from: nat)
    requires sha.Valid() && sha.buffLen < sha.alg.B()
    modifies sha`buffLen, sha.buffer
    ensures sha.Valid() && from <= |input|
    ensures |input| - from >= sha.alg.B() ==> old(sha.buffLen) + from == |inlined|
    ensures SetAside(sha.alg, old(sha.buffer[..sha.buffLen]), input, inlined, sha.buffer[..sha.buffLen], from)
  {
    ghost var pending := sha.buffer[..sha.buffLen];
    inlined, from := [], 0;
    if sha.buffLen > 0 {
      from := sha.TopUp(input);
      if sha.buffLen == sha.alg.B() {
        inlined, sha.buffLen := sha.buffer[..sha.alg.B()], 0;
      } else {
        assert input[..from] == input;
      }
    }
    MappedParts(sha.alg, pending, input, inlined, sha.buffer[..sha.buffLen], from);
  }

  /** As much as fills whole blocks. */
  method MappedSize(n: nat, b: nat) returns (size: nat)
    requires b > 0
    ensures size == Whole(n, b) && (size > 0 ==> n >= b)
  {
    size := 0;
    if n >= b {
      size := Whole(n, b);
    } else {
      SmallIsItsRemainder(n, b);
    }
  }

  /** Pending bytes and input into one inline block, a stretch of whole blocks to map, and a rest. */
  method PackMapped<S(!new)>(sha: Context<S>, input: seq<byte>) returns (inlined: seq<byte>, from: nat, dmaSz: nat)
    requires sha.Valid() && sha.buffLen < sha.alg.B()
    modifies sha`buffLen, sha.buffer
    ensures sha.Valid() && sha.buffLen < sha.alg.B()
    ensures dmaSz > 0 ==> old(sha.buffLen) + from == |inlined|
    ensures inlined == InlinePart(sha.alg, old(sha.buffer[..sha.buffLen]), input)
    ensures from + dmaSz <= |input| && input[from..from + dmaSz] == DmaPart(sha.alg, old(sha.buffer[..sha.buffLen]), input)
    ensures sha.buffer[..sha.buffLen] == WaitingBytes(sha.alg, old(sha.buffer[..sha.buffLen]) + input)
  {
    ghost var pending := sha.buffer[..sha.buffLen];
    inlined, from := CompleteBlock(sha, input);
    dmaSz := MappedSize(|input| - from, sha.alg.B());
    assert input[from..from + dmaSz] == DmaPart(sha.alg, pending, input);
    sha.Stash(input, from + dmaSz);
  }

  lemma NothingPending<S>(alg: Alg<S>, input: seq<byte>)
    ensures InlinePart(alg, [], input) == []
    ensures input[..Whole(|input|, alg.B())] == DmaPart(alg, [], input)
    ensures [] + input[Whole(|input|, alg.B())..] == WaitingBytes(alg, [] + input)
  {
    assert [] + input == input;
  }

  lemma BlockCompleted<S>(alg: Alg<S>, pending: seq<byte>, input: seq<byte>, from: nat)
    requires 0 < |pending| < alg.B() && from <= |input| && |pending| + from == alg.B()
    ensures InlinePart(alg, pending, input) == pending + input[..from]
    ensures input[from..from + Whole(|input| - from, alg.B())] == DmaPart(alg, pending, input)
    ensures [] + input[from + Whole(|input| - from, alg.B())..] == WaitingBytes(alg, pending + input)
  {
    DivModUnique(alg.B(), alg.B(), 1, 0);
    ModOfSum(alg.B(), |input| - from, alg.B());
    assert pending + input == (pending + input[..from]) + input[from..];
  }

  lemma NothingCompleted<S>(alg: Alg<S>, pending: seq<byte>, input: seq<byte>)
    requires 0 < |pending| && |pending| + |input| < alg.B()
    ensures InlinePart(alg, pending, input) == [] && DmaPart(alg, pending, input) == []
    ensures pending + input == WaitingBytes(alg, pending + input)
  {
    SmallIsItsRemainder(|pending| + |input|, alg.B());
  }

  lemma MappedParts<S>(alg: Alg<S>, pending: seq<byte>, input: seq<byte>, inlined: seq<byte>, rest: seq<byte>, from: nat)
    requires |pending| < alg.B() && from <= |input| && ToppedUp(alg, pending, input, inlined, rest, from)
    ensures SetAside(alg, pending, input, inlined, rest, from)
  {
    if pending == [] {
      NothingPending(alg, input);
    } else if inlined != [] {
      BlockCompleted(alg, pending, input, from);
    } else {
      SmallIsItsRemainder(0, alg.B());
      NothingCompleted(alg, pending, input);
      assert rest + [] == rest;
    }
  }

  /** The update request for this input. */
  function UpdateOf<S>(alg: Alg<S>, c: Ctx<S>, input: seq<byte>): Request<S>
    requires |c.pending| < alg.B()
  {
    Request(false, c.digest, c.len, InlinePart(alg, c.pending, input), DmaPart(alg, c.pending, input))
  }

  /** What mapping and sending it reports. */
  function SendCode<S>(link: Link<Request<S>>, req: Request<S>, pres: seq<PreEvent>, addr: nat): Rc {
    if Mappable(req, pres, addr) then Send(link, req).rc else PreResult(pres, addr).0
  }

  /** What mapping and sending adds to the ledger: the blocks, at this address, for reading; dropped again unless sent. */
  function BlocksLogged<S>(req: Request<S>, pres: seq<PreEvent>, addr: nat, ok: bool): seq<DmaCall> {
    if req.dma == [] || !Mappable(req, pres, addr) then []
    else
      var m := Mapping(addr, PreResult(pres, addr).1, |req.dma|, ReadDir);
      if ok then [Pre(m)] else [Pre(m), Post(m)]
  }

  /** Where in the input the mapped blocks start: behind what completed the inline block. */
  function Offset<S>(req: Request<S>, pending: nat): nat {
    if |req.inlined| > pending then |req.inlined| - pending else 0
  }

  /** The stretch of the input that starts there is what the server is to read; all before it went inline. */
  lemma StretchIsBlocks<S>(alg: Alg<S>, c: Ctx<S>, input: seq<byte>)
    requires |c.pending| < alg.B()
    ensures var req := UpdateOf(alg, c, input);
      var from := Offset(req, |c.pending|);
      req.dma != [] ==>
        && from + |req.dma| <= |input| && input[from..from + |req.dma|] == req.dma
        && c.pending + input[..from] == req.inlined
  {
    var req := UpdateOf(alg, c, input);
    PartsAreWire(alg, c.pending, input);
    var all := c.pending + input;
    if req.inlined == [] {
      if 0 < |c.pending| {
        SmallIsItsRemainder(|all|, alg.B());
      }
      assert all[..|req.dma|] == req.dma && (c.pending == [] ==> all == input);
    } else {
      var from := alg.B() - |c.pending|;
      assert all == c.pending + input[..from] + input[from..];
    }
  }

  /** A request mapped and sent, or not: the result, one step of the slot machine, and the ledger. */
  datatype Attempt<S> = Attempt(rc: Rc, view: SlotRuns.State<Request<S>, nat>, log: seq<DmaCall>)

  function Tried<S>(st: SlotRuns.State<Request<S>, nat>, pres: seq<PreEvent>, log: seq<DmaCall>, addr: nat, req: Request<S>): Attempt<S> {
    var rc := SendCode(st.link, req, pres, addr);
    Attempt(rc, SlotRuns.Next(ShaKind(), st, SlotRuns.Ask(req, Mappable(req, pres, addr))),
            log + BlocksLogged(req, pres, addr, rc == Ok))
  }

  /** The mapped stretch lies where the inline block ended; nothing mapped lies anywhere. */
  lemma TriedAt<S>(st: SlotRuns.State<Request<S>, nat>, pres: seq<PreEvent>, log: seq<DmaCall>, a: nat, b: nat, req: Request<S>)
    requires req.dma != [] ==> a == b
    ensures Tried(st, pres, log, a, req) == Tried(st, pres, log, b, req)
  {
  }

  /** The same for the update of this input, which without a whole block sends nothing. */
  function TriedUpdate<S>(alg: Alg<S>, c: Ctx<S>, before: Attempt<S>, pres: seq<PreEvent>, addr: nat, input: seq<byte>): Attempt<S>
    requires |c.pending| < alg.B()
  {
    var req := UpdateOf(alg, c, input);
    if WireBytes(alg, c.pending + input) == [] then Attempt(Ok, before.view, before.log)
    else Tried(before.view, pres, before.log, addr + Offset(req, |c.pending|), req)
  }

  /** The attempt on what was packed; without a block there is none. */
  function TriedPacked<S>(before: Attempt<S>, pres: seq<PreEvent>, addr: nat, req: Request<S>): Attempt<S> {
    if req.inlined == [] && req.dma == [] then Attempt(Ok, before.view, before.log)
    else Tried(before.view, pres, before.log, addr, req)
  }

  lemma PackedIsTried<S>(alg: Alg<S>, c: Ctx<S>, before: Attempt<S>, pres: seq<PreEvent>, addr: nat, input: seq<byte>,
                         from: nat, req: Request<S>)
    requires |c.pending| < alg.B() && req == UpdateOf(alg, c, input)
    requires req.dma != [] ==> |c.pending| + from == |req.inlined|
    ensures TriedPacked(before, pres, addr + from, req) == TriedUpdate(alg, c, before, pres, addr, input)
    ensures req.dma != [] ==> from == Offset(req, |c.pending|)
  {
    PartsAreWire(alg, c.pending, input);
    TriedAt(before.view, pres, before.log, addr + from, addr + Offset(req, |c.pending|), req);
  }

  lemma TriedMeans<S>(st: SlotRuns.State<Request<S>, nat>, pres: seq<PreEvent>, log: seq<DmaCall>, addr: nat, req: Request<S>)
    requires !st.link.pending
    ensures var t := Tried(st, pres, log, addr, req);
      && (t.rc == Ok ==>
            && t.view.link.pending && t.view.link.accepted == st.link.accepted + [req] && t.view.link.lastReq == |t.view.link.accepted|
            && t.view.link.recvs == st.link.recvs && t.view.slot == |req.dma|)
      && (t.rc != Ok ==> t.view.slot == 0)
      && (Calm(st.link) && pres == [] ==> t.rc == Ok && t.view.link.sends == [])
  {
  }

  /** What was packed is the update request, and nothing was packed exactly when nothing is to be sent. */
  lemma PackedIsUpdate<S>(alg: Alg<S>, c: Ctx<S>, input: seq<byte>, inlined: seq<byte>, blocks: seq<byte>)
    requires |c.pending| < alg.B() && inlined == InlinePart(alg, c.pending, input) && blocks == DmaPart(alg, c.pending, input)
    ensures Request(false, c.digest, c.len, inlined, blocks) == UpdateOf(alg, c, input)
    ensures inlined == [] && blocks == [] <==> WireBytes(alg, c.pending + input) == []
  {
    PartsAreWire(alg, c.pending, input);
  }

  /** Nothing is in flight, and neither the link nor the mapping of memory is scheduled to fail. */
  ghost predicate FaultFree<S>(client: Client<S>)
    reads client, client.comm, client.dma
  {
    Calm(client.comm.link) && client.dma.pres == []
  }

  /** Map the whole blocks, note the mapping in the slot, send; whatever fails undoes it all. */
  method MapAndSend<S(!new)>(client: Client<S>, req: Request<S>, addr: nat) returns (rc: Rc)
    requires client.Valid() && Tidy(client) && !client.comm.link.pending
    modifies client`shaSlot, client.comm, client.dma
    ensures client.Valid() && Tidy(client)
    ensures rc == Ok ==> client.comm.link == Send(old(client.comm.link), req).link && client.comm.link.pending
    ensures rc == Ok ==> client.shaSlot.ioSz == |req.dma| && (req.dma != [] ==> client.shaSlot.clientAddr == addr)
    ensures rc != Ok ==> client.shaSlot == NO_SLOT
    ensures rc != Ok ==> client.comm.link in {old(client.comm.link), Send(old(client.comm.link), req).link}
    ensures Attempt(rc, View(client), client.dma.log) == Tried(old(View(client)), old(client.dma.pres), old(client.dma.log), addr, req)
    ensures old(client.dma.pres) == [] ==> client.dma.pres == []
  {
    var inAddr, acquired := 0, false;
    rc := Ok;
    if req.dma != [] {
      rc, inAddr := client.dma.Acquire(addr, |req.dma|, ReadDir);
      acquired := rc == Ok;
      if acquired {
        Opens(old(client.dma.log), Mapping(addr, inAddr, |req.dma|, ReadDir));
      }
    }
    ghost var mapped := client.dma.log;
    ghost var log := old(client.dma.log);
    if rc == Ok {
      client.shaSlot := ShaSlot(inAddr, if req.dma == [] then 0 else addr, |req.dma|);
      rc := client.comm.SendRequest(req);
    }
    if rc != Ok {
      if acquired {
        var _ := client.dma.Release(Mapping(addr, inAddr, |req.dma|, ReadDir));
        Closes(mapped, Mapping(addr, inAddr, |req.dma|, ReadDir));
      }
      client.shaSlot := NO_SLOT;
    }
    ghost var m := Mapping(addr, inAddr, |req.dma|, ReadDir);
    assert log + [] == log && log + [Pre(m)] + [Post(m)] == log + [Pre(m), Post(m)];
  }

  /** Send what was packed, if anything; a failure brings the old pending bytes back. */
  method SendOrRestore<S(!new)>(sha: Context<S>, client: Client<S>, inlined: seq<byte>, blocks: seq<byte>, addr: nat, saved: seq<byte>,
                                ghost req: Request<S>, ghost before: Attempt<S>, ghost pres: seq<PreEvent>) returns (rc: Rc, sent: bool)
    requires sha.Valid() && client.Valid() && Tidy(client) && !client.comm.link.pending
    requires sha.buffLen < sha.alg.B() && |saved| < sha.alg.B()
    requires req == Request(false, sha.digest, Len(sha.loLen, sha.hiLen), inlined, blocks)
    requires before == Attempt(Ok, View(client), client.dma.log) && pres == client.dma.pres
    modifies sha`buffLen, sha.buffer, client`shaSlot, client.comm, client.dma
    ensures sha.Valid() && client.Valid() && Tidy(client) && sha.buffLen < sha.alg.B()
    ensures sha.buffer[..sha.buffLen] == if rc == Ok then old(sha.buffer[..sha.buffLen]) else saved
    ensures sent <==> rc == Ok && !(inlined == [] && blocks == [])
    ensures Attempt(rc, View(client), client.dma.log) == TriedPacked(before, pres, addr, req)
    ensures sent && client.shaSlot.ioSz > 0 ==> blocks != [] && client.shaSlot.clientAddr == addr
    ensures pres == [] ==> client.dma.pres == []
  {
    if inlined == [] && blocks == [] {
      return Ok, false;
    }
    ghost var packed := sha.buffer[..sha.buffLen];
    rc := MapAndSend(client, Request(false, sha.digest, Len(sha.loLen, sha.hiLen), inlined, blocks), addr);
    sent := rc == Ok;
    assert sha.buffer[..sha.buffLen] == packed;
    if rc != Ok {
      sha.buffLen := |saved|;
      CopyInto(sha.buffer, 0, saved);
      assert sha.buffer[..sha.buffLen] == saved;
    }
  }

  /** The old pending bytes saved, the input packed. */
  method SaveAndPack<S(!new)>(sha: Context<S>, input: seq<byte>) returns (saved: seq<byte>, inlined: seq<byte>, from: nat, blocks: seq<byte>)
    requires sha.Valid() && sha.buffLen < sha.alg.B()
    modifies sha`buffLen, sha.buffer
    ensures sha.Valid() && sha.buffLen < sha.alg.B() && saved == old(sha.Value()).pending
    ensures sha.buffer[..sha.buffLen] == WaitingBytes(sha.alg, saved + input)
    ensures Request(false, sha.digest, Len(sha.loLen, sha.hiLen), inlined, blocks) == UpdateOf(sha.alg, old(sha.Value()), input)
    ensures inlined == [] && blocks == [] <==> WireBytes(sha.alg, saved + input) == []
    ensures blocks != [] ==> |saved| + from == |inlined|
  {
    ghost var c := sha.Value();
    var savedLen := sha.buffLen;
    var copy := new byte[SnapshotLen(sha.alg.variant)](_ => 0);
    CopyInto(copy, 0, sha.buffer[..sha.buffLen]);
    saved := copy[..savedLen];
    assert saved == c.pending;
    var dmaSz;
    inlined, from, dmaSz := PackMapped(sha, input);
    blocks := input[from..from + dmaSz];
    PackedIsUpdate(sha.alg, c, input, inlined, blocks);
  }

  /** The update request once its arguments are accepted; the ghosts are what it starts from. */
  method BuildAndSend<S(!new)>(sha: Context<S>, client: Client<S>, input: seq<byte>, addr: nat,
                               ghost c: Ctx<S>, ghost before: Attempt<S>, ghost pres: seq<PreEvent>) returns (rc: Rc, sent: bool)
    requires sha.Valid() && client.Valid() && Tidy(client) && !client.comm.link.pending && sha.buffLen < sha.alg.B()
    requires c == sha.Value() && before == Attempt(Ok, View(client), client.dma.log) && pres == client.dma.pres
    modifies sha`buffLen, sha.buffer, client`shaSlot, client.comm, client.dma
    ensures sha.Valid() && client.Valid() && Tidy(client) && sha.buffLen < sha.alg.B()
    ensures sha.buffer[..sha.buffLen] == if rc == Ok then WaitingBytes(sha.alg, c.pending + input) else c.pending
    ensures sent <==> rc == Ok && WireBytes(sha.alg, c.pending + input) != []
    ensures Attempt(rc, View(client), client.dma.log) == TriedUpdate(sha.alg, c, before, pres, addr, input)
    ensures sent && client.shaSlot.ioSz > 0 ==> client.shaSlot.clientAddr == addr + Offset(UpdateOf(sha.alg, c, input), |c.pending|)
    ensures pres == [] ==> client.dma.pres == []
  {
    ghost var req := UpdateOf(sha.alg, c, input);
    var saved, inlined, from, blocks := SaveAndPack(sha, input);
    PackedIsTried(sha.alg, c, before, pres, addr, input, from, req);
    rc, sent := SendOrRestore(sha, client, inlined, blocks, addr + from, saved, req, before, pres);
  }

  /** wh_Client_Sha256DmaUpdateRequest and its copies. */
  method DmaUpdateRequest<S(!new)>(sha: Context<S>, client: Client<S>, input: seq<byte>, addr: nat) returns (rc: Rc, sent: bool)
    requires sha.Valid() && client.Valid() && Tidy(client)
    modifies sha`buffLen, sha.buffer, client`shaSlot, client.comm, client.dma
    ensures sha.Valid() && client.Valid() && Tidy(client)
    ensures old(client.comm.link.pending) ==> rc == RequestPending && !sent
    ensures !old(client.comm.link.pending) && old(sha.buffLen) >= sha.alg.B() ==> rc == BadArgs && !sent
    ensures old(client.comm.link.pending || sha.buffLen >= sha.alg.B()) ==>
      View(client) == old(View(client)) && client.dma.log == old(client.dma.log)
    // the blocks are mapped for reading, from where in the input the inline block ended
    ensures !old(client.comm.link.pending) && old(sha.buffLen) < sha.alg.B() ==>
      Attempt(rc, View(client), client.dma.log)
        == TriedUpdate(sha.alg, old(sha.Value()), Attempt(Ok, old(View(client)), old(client.dma.log)), old(client.dma.pres), addr, input)
    ensures sent && client.shaSlot.ioSz > 0 ==>
      client.shaSlot.clientAddr == addr + Offset(UpdateOf(sha.alg, old(sha.Value()), input), old(sha.buffLen))
    ensures old(FaultFree(client) && sha.buffLen < sha.alg.B()) ==> rc == Ok && client.dma.pres == []
    ensures sent ==> client.comm.link.lastReq == |client.comm.link.accepted|
    ensures old(Calm(client.comm.link)) ==> client.comm.link.sends == [] && client.comm.link.recvs == []
    ensures rc == Ok ==> old(sha.buffLen) < sha.alg.B() && sha.buffLen < sha.alg.B()
    ensures sent ==> rc == Ok
    ensures rc != Ok ==> sha.buffer[..sha.buffLen] == old(sha.buffer[..sha.buffLen])
    ensures rc == Ok ==>
      sha.buffer[..sha.buffLen] == WaitingBytes(sha.alg, old(sha.buffer[..sha.buffLen]) + input)
    ensures rc == Ok ==> (sent <==> WireBytes(sha.alg, old(sha.buffer[..sha.buffLen]) + input) != [])
    ensures rc == Ok && !sent ==> client.comm.link == old(client.comm.link)
    ensures sent ==>
      var req := UpdateOf(sha.alg, old(sha.Value()), input);
      client.comm.link.pending && client.comm.link.accepted == old(client.comm.link.accepted) + [req] && client.shaSlot.ioSz == |req.dma|
    ensures !old(client.comm.link.pending) && !sent ==> client.shaSlot.ioSz == 0
  {
    if client.comm.link.pending {
      return RequestPending, false;
    }
    assert client.shaSlot.ioSz == 0;
    if sha.buffLen >= sha.alg.B() {
      return BadArgs, false;
    }
    if input == [] {
      assert sha.buffer[..sha.buffLen] + input == sha.buffer[..sha.buffLen];
      SmallIsItsRemainder(sha.buffLen, sha.alg.B());
      return Ok, false;
    }
    ghost var st, pres, log, req := View(client), client.dma.pres, client.dma.log, UpdateOf(sha.alg, sha.Value(), input);
    ghost var from := addr + Offset(req, sha.buffLen);
    ghost var c, before := sha.Value(), Attempt(Ok, st, log);
    ghost var wire := WireBytes(sha.alg, c.pending + input);
    rc, sent := BuildAndSend(sha, client, input, addr, c, before, pres);
    if wire != [] {
      TriedMeans(st, pres, log, from, req);
    }
  }

  /** Release what the slot records, if anything, and empty it. */
  method ReleaseSlot<S(!new)>(client: Client<S>)
    requires Account(client.dma.log) == SlotHolds(client.shaSlot)
    modifies client`shaSlot, client.dma
    ensures Account(client.dma.log) == SlotHolds(client.shaSlot) && client.shaSlot.ioSz == 0
    ensures client.dma.pres == old(client.dma.pres)
    ensures client.dma.log == old(if client.shaSlot.ioSz > 0 then client.dma.log + [Post(SlotMapping(client.shaSlot))] else client.dma.log)
  {
    if client.shaSlot.ioSz > 0 {
      Closes(client.dma.log, SlotMapping(client.shaSlot));
      var _ := client.dma.Release(SlotMapping(client.shaSlot));
      client.shaSlot := client.shaSlot.(ioSz := 0);
    }
  }

  /** wh_Client_Sha256DmaUpdateResponse and its copies: every outcome but "not ready" releases the mapping. */
  method DmaUpdateResponse<S(!new)>(sha: Context<S>, client: Client<S>) returns (rc: Rc)
    requires sha.Valid() && client.Valid() && Tidy(client)
    modifies sha`digest, sha`loLen, sha`hiLen, client`shaSlot, client.comm, client.dma
    ensures sha.Valid() && client.Valid() && Tidy(client)
    ensures client.comm.link == Recv(old(client.comm.link)).link
    ensures rc == UpdateCode(sha.alg, client.knowsVariant, Recv(old(client.comm.link))) && client.dma.pres == old(client.dma.pres)
    ensures rc == NotReady <==> Recv(old(client.comm.link)).rc == NotReady
    ensures rc == NotReady ==> client.shaSlot == old(client.shaSlot) && client.dma.log == old(client.dma.log)
    ensures rc != NotReady ==> client.shaSlot.ioSz == 0
    ensures rc != NotReady ==>
      client.dma.log == old(if client.shaSlot.ioSz > 0 then client.dma.log + [Post(SlotMapping(client.shaSlot))] else client.dma.log)
    ensures rc != NotReady ==> (client.comm.link.pending <==> Lingers(NextRecv(old(client.comm.link.recvs))))
    ensures View(client) == SlotRuns.Next(ShaKind(), old(View(client)), SlotRuns.Poll)
    ensures rc != Ok ==> sha.Value() == old(sha.Value())
    ensures rc == Ok ==> !client.comm.link.pending
    ensures rc == Ok ==> Answered(sha.alg, client.knowsVariant, old(client.comm.link.accepted)[|old(client.comm.link.accepted)| - 1],
                                  old(Len(sha.loLen, sha.hiLen)), sha.digest, Len(sha.loLen, sha.hiLen))
  {
    rc := sha.UpdateResponse(client);
    if rc == NotReady {
      return;
    }
    ReleaseSlot(client);
  }

  /** One poll, as far as the loop below needs it. */
  method PollDma<S(!new)>(sha: Context<S>, client: Client<S>) returns (rc: Rc)
    requires sha.Valid() && client.Valid() && Tidy(client) && client.comm.link.pending
    modifies sha`digest, sha`loLen, sha`hiLen, client`shaSlot, client.comm, client.dma
    ensures sha.Valid() && client.Valid() && Tidy(client)
    ensures client.comm.link.accepted == old(client.comm.link.accepted)
    ensures if rc == NotReady then client.comm.link.pending else client.shaSlot.ioSz == 0
    ensures |client.comm.link.recvs| < old(|client.comm.link.recvs|) || (rc != NotReady && client.comm.link.recvs == old(client.comm.link.recvs))
    ensures rc != Ok ==> sha.Value() == old(sha.Value())
    ensures rc == Ok ==> !client.comm.link.pending
    ensures client.dma.pres == old(client.dma.pres)
    ensures old(WillAnswer(sha.alg, client.knowsVariant, client.comm.link)) ==> rc == Ok && Calm(client.comm.link)
    ensures rc == Ok ==> Answered(sha.alg, client.knowsVariant, old(client.comm.link.accepted)[|old(client.comm.link.accepted)| - 1],
                                  old(Len(sha.loLen, sha.hiLen)), sha.digest, Len(sha.loLen, sha.hiLen))
  {
    AnswerComes(sha.alg, client.knowsVariant, client.comm.link);
    rc := DmaUpdateResponse(sha, client);
  }

  /** Poll for the response of the DMA update in flight. */
  method AwaitDma<S(!new)>(sha: Context<S>, client: Client<S>) returns (rc: Rc)
    requires sha.Valid() && client.Valid() && Tidy(client) && client.comm.link.pending
    modifies sha`digest, sha`loLen, sha`hiLen, client`shaSlot, client.comm, client.dma
    ensures sha.Valid() && client.Valid() && Tidy(client) && client.shaSlot.ioSz == 0 && rc != NotReady
    ensures client.comm.link.accepted == old(client.comm.link.accepted)
    ensures rc != Ok ==> sha.Value() == old(sha.Value())
    ensures rc == Ok ==> !client.comm.link.pending
    ensures client.dma.pres == old(client.dma.pres)
    ensures old(WillAnswer(sha.alg, client.knowsVariant, client.comm.link)) ==> rc == Ok && Calm(client.comm.link)
    ensures rc == Ok ==> Answered(sha.alg, client.knowsVariant, old(client.comm.link.accepted)[|old(client.comm.link.accepted)| - 1],
                                  old(Len(sha.loLen, sha.hiLen)), sha.digest, Len(sha.loLen, sha.hiLen))
  {
    ghost var accepted := client.comm.link.accepted;
    ghost var req := accepted[|accepted| - 1];
    ghost var len := Len(sha.loLen, sha.hiLen);
    ghost var c, link, pres := sha.Value(), client.comm.link, client.dma.pres;
    ghost var calm := WillAnswer(sha.alg, client.knowsVariant, link);
    rc := NotReady;
    while rc == NotReady
      invariant sha.Valid() && client.Valid() && Tidy(client) && client.comm.link.accepted == accepted
      invariant if rc == NotReady then client.comm.link.pending else client.shaSlot.ioSz == 0
      invariant rc != Ok ==> sha.Value() == c
      invariant rc == Ok ==> !client.comm.link.pending
      invariant rc == Ok ==> Answered(sha.alg, client.knowsVariant, req, len, sha.digest, Len(sha.loLen, sha.hiLen))
      invariant client.dma.pres == pres
      invariant calm ==> if rc == NotReady then client.comm.link == link else rc == Ok && Calm(client.comm.link)
      decreases |client.comm.link.recvs|, rc == NotReady
    {
      rc := PollDma(sha, client);
    }
  }

  /** A request in flight for this input is, in the terms of its context, answered when asked for. */
  lemma UpdateServed<S>(alg: Alg<S>, known: bool, c: Ctx<S>, input: seq<byte>)
    requires ValidLen(c.len) && |c.pending| < alg.B() && |input| < TWO32
    ensures Serve(alg, known, UpdateOf(alg, c, input)).Some?
  {
    PartsAreWire(alg, c.pending, input);
    ServedUpdate(alg, known, UpdateOf(alg, c, input));
  }

  /** Wait for the update of this input; answered, it has absorbed it. */
  method AwaitAbsorb<S(!new)>(sha: Context<S>, client: Client<S>, ghost c: Ctx<S>, ghost input: seq<byte>) returns (rc: Rc)
    requires sha.Valid() && client.Valid() && Tidy(client) && client.comm.link.pending
    requires |c.pending| < sha.alg.B() && |input| < TWO32 && sha.buffLen < sha.alg.B()
    requires sha.Value() == Ctx(c.digest, c.len, WaitingBytes(sha.alg, c.pending + input))
    requires client.comm.link.accepted[|client.comm.link.accepted| - 1] == UpdateOf(sha.alg, c, input)
    modifies sha`digest, sha`loLen, sha`hiLen, client`shaSlot, client.comm, client.dma
    ensures sha.Valid() && client.Valid() && Tidy(client) && client.shaSlot.ioSz == 0
    ensures client.comm.link.accepted == old(client.comm.link.accepted) && client.dma.pres == old(client.dma.pres)
    ensures rc == Ok ==> sha.Value() == Absorb(sha.alg, c, input)
    ensures old(client.comm.link.lastReq == |client.comm.link.accepted| && client.comm.link.sends == [] && client.comm.link.recvs == []) ==>
      rc == Ok && Calm(client.comm.link)
  {
    UpdateServed(sha.alg, client.knowsVariant, c, input);
    rc := AwaitDma(sha, client);
    if rc == Ok {
      PartsAreWire(sha.alg, c.pending, input);
      AnsweredIsAbsorb(sha.alg, client.knowsVariant, c, input, InlinePart(sha.alg, c.pending, input), DmaPart(sha.alg, c.pending, input),
                       sha.digest, Len(sha.loLen, sha.hiLen));
    }
  }

  lemma StashedIsAbsorb<S>(alg: Alg<S>, c: Ctx<S>, input: seq<byte>)
    requires ValidLen(c.len) && WireBytes(alg, c.pending + input) == []
    ensures Ctx(c.digest, c.len, WaitingBytes(alg, c.pending + input)) == Absorb(alg, c, input)
  {
    BufferedIsAbsorb(alg, c, input);
  }

  /** The request of a blocking DMA update: in flight, absorbed without a message, or refused. */
  method BeginUpdate<S(!new)>(sha: Context<S>, client: Client<S>, input: seq<byte>, addr: nat) returns (rc: Rc, sent: bool)
    requires sha.Valid() && client.Valid() && Tidy(client)
    modifies sha`buffLen, sha.buffer, client`shaSlot, client.comm, client.dma
    ensures sha.Valid() && client.Valid() && Tidy(client)
    ensures old(client.comm.link.pending) ==> rc == RequestPending
    ensures old(client.comm.link.pending) || old(sha.buffLen) >= sha.alg.B() ==> rc != Ok
    ensures sent ==> rc == Ok
    ensures rc != Ok ==> sha.Value() == old(sha.Value())
    ensures rc == Ok ==> old(sha.buffLen) < sha.alg.B() && sha.buffLen < sha.alg.B()
    ensures rc == Ok && !sent ==> sha.Value() == Absorb(sha.alg, old(sha.Value()), input)
    ensures sent ==>
      && client.comm.link.pending
      && sha.Value() == Ctx(sha.digest, Len(sha.loLen, sha.hiLen), WaitingBytes(sha.alg, old(sha.Value()).pending + input))
      && client.comm.link.accepted[|client.comm.link.accepted| - 1] == UpdateOf(sha.alg, old(sha.Value()), input)
    ensures rc == Ok ==> client.comm.Count() == old(client.comm.Count() + Messages(sha.alg, sha.buffLen + |input|))
    ensures !old(client.comm.link.pending) && !sent ==> client.shaSlot.ioSz == 0
    ensures old(FaultFree(client) && sha.buffLen < sha.alg.B()) ==>
      && rc == Ok && client.dma.pres == []
      && if sent then client.comm.link.lastReq == |client.comm.link.accepted| && client.comm.link.sends == [] && client.comm.link.recvs == []
         else Calm(client.comm.link)
  {
    ghost var c := sha.Value();
    rc, sent := DmaUpdateRequest(sha, client, input, addr);
    if rc == Ok && !sent {
      StashedIsAbsorb(sha.alg, c, input);
    }
  }


  /** The update half of a blocking DMA call: one request, however long the input. */
  method DmaUpdate<S(!new)>(sha: Context<S>, client: Client<S>, input: seq<byte>, addr: nat) returns (rc: Rc)
    requires sha.Valid() && client.Valid() && Tidy(client) && |input| < TWO32
    modifies sha, sha.buffer, client`shaSlot, client.comm, client.dma
    ensures sha.Valid() && client.Valid() && Tidy(client)
    ensures old(client.comm.link.pending) ==> rc == RequestPending
    ensures old(client.comm.link.pending) || old(sha.buffLen) >= sha.alg.B() ==> rc != Ok && sha.Value() == old(sha.Value())
    ensures old(sha.buffLen) < sha.alg.B() ==> sha.buffLen < sha.alg.B()
    ensures rc == Ok ==> sha.Value() == Absorb(sha.alg, old(sha.Value()), input)
    ensures rc == Ok ==> client.comm.Count() == old(client.comm.Count() + Messages(sha.alg, sha.buffLen + |input|))
    ensures old(FaultFree(client) && sha.buffLen < sha.alg.B()) ==> rc == Ok && FaultFree(client)
    ensures !old(client.comm.link.pending) ==> client.shaSlot.ioSz == 0 && Account(client.dma.log) == NothingHeld()
  {
    ghost var c := sha.Value();
    var sent;
    rc, sent := BeginUpdate(sha, client, input, addr);
    if sent {
      rc := AwaitAbsorb(sha, client, c, input);
    }
  }

  /** The final half of a blocking DMA call: inline only, and never behind a pending request. */
  method DmaFinalize<S(!new)>(sha: Context<S>, client: Client<S>, out: array<byte>) returns (rc: Rc)
    requires sha.Valid() && client.Valid() && Tidy(client)
    requires out != sha.buffer && out.Length >= DigestSize(sha.alg.variant)
    modifies sha`digest, sha`loLen, sha`hiLen, sha`buffLen, client.comm, out
    ensures sha.Valid() && client.Valid() && Tidy(client)
    ensures old(client.comm.link.pending) || old(sha.buffLen) >= sha.alg.B() ==> rc != Ok
    ensures rc != Ok ==> sha.Value() == old(sha.Value()) && out[..] == old(out[..])
    ensures rc == Ok ==> sha.Value() == Init(sha.alg)
    ensures rc == Ok ==> old(|sha.Value().pending|) < sha.alg.B() && out[..DigestSize(sha.alg.variant)] == Finish(sha.alg, old(sha.Value()))
    ensures old(FaultFree(client) && sha.buffLen < sha.alg.B()) ==> rc == Ok && FaultFree(client)
    ensures rc == Ok ==> client.comm.Count() == old(client.comm.Count()) + 1
  {
    if client.comm.link.pending {
      return RequestPending;
    }
    rc := Finalize(sha, client, out);
  }

  /** Update, then finish when there is an output; a failure may leave the context half-way. */
  method DmaBoth<S(!new)>(sha: Context<S>, client: Client<S>, input: seq<byte>, addr: nat, out: array?<byte>) returns (rc: Rc)
    requires sha.Valid() && client.Valid() && Tidy(client) && |input| < TWO32
    requires out != null ==> out != sha.buffer && out.Length >= DigestSize(sha.alg.variant)
    modifies sha, sha.buffer, client`shaSlot, client.comm, client.dma, out
    ensures sha.Valid() && client.Valid() && Tidy(client)
    ensures rc != Ok ==> out != null ==> out[..] == old(out[..])
    ensures rc != Ok && old(sha.buffLen) >= sha.alg.B() ==> sha.Value() == old(sha.Value())
    ensures rc == Ok && input == [] && out == null ==> sha.Value() == old(sha.Value())
    ensures rc == Ok && (input != [] || out != null) ==>
      && !old(client.comm.link.pending) && old(sha.buffLen) < sha.alg.B()
      && (out == null ==> sha.Value() == Absorb(sha.alg, old(sha.Value()), input))
      && (out != null ==>
            sha.Value() == Init(sha.alg) && out[..DigestSize(sha.alg.variant)] == Finish(sha.alg, Absorb(sha.alg, old(sha.Value()), input)))
      && client.comm.Count() == old(client.comm.Count() + Messages(sha.alg, sha.buffLen + |input|)) + if out == null then 0 else 1
    ensures old(FaultFree(client) && sha.buffLen < sha.alg.B()) ==> rc == Ok && FaultFree(client)
    ensures !old(client.comm.link.pending) ==> client.shaSlot.ioSz == 0 && Account(client.dma.log) == NothingHeld()
  {
    ghost var was := if out == null then [] else out[..];
    ghost var count := client.comm.Count() + Messages(sha.alg, sha.buffLen + |input|);
    rc := Ok;
    if input != [] {
      rc := DmaUpdate(sha, client, input, addr);
      assert out != null ==> out[..] == was;
      assert rc == Ok ==> client.comm.Count() == count;
    } else if sha.buffLen < sha.alg.B() {
      AbsorbNothing(sha.alg, sha.Value());
      SmallIsItsRemainder(sha.buffLen, sha.alg.B());
      assert client.comm.Count() == count;
    }
    if rc == Ok && out != null {
      rc := DmaFinalize(sha, client, out);
      assert rc != Ok ==> out[..] == was;
    }
  }

  /** wh_Client_Sha256Dma and its copies, _Sha3DmaOneshot: a failed call leaves the context as passed. */
  method DmaBlocking<S(!new)>(sha: Context<S>, client: Client<S>, input: seq<byte>, addr: nat, out: array?<byte>) returns (rc: Rc)
    requires sha.Valid() && client.Valid() && Tidy(client) && |input| < TWO32
    requires out != null ==> out != sha.buffer && out.Length >= DigestSize(sha.alg.variant)
    modifies sha, sha.buffer, client`shaSlot, client.comm, client.dma, out
    ensures sha.Valid() && client.Valid() && Tidy(client)
    ensures rc != Ok ==> sha.Value() == old(sha.Value()) && (out != null ==> out[..] == old(out[..]))
    ensures rc == Ok && input == [] && out == null ==> sha.Value() == old(sha.Value())
    ensures rc == Ok && (input != [] || out != null) ==>
      && !old(client.comm.link.pending) && old(sha.buffLen) < sha.alg.B()
      && (out == null ==> sha.Value() == Absorb(sha.alg, old(sha.Value()), input))
      && (out != null ==>
            sha.Value() == Init(sha.alg) && out[..DigestSize(sha.alg.variant)] == Finish(sha.alg, Absorb(sha.alg, old(sha.Value()), input)))
      && client.comm.Count() == old(client.comm.Count() + Messages(sha.alg, sha.buffLen + |input|)) + if out == null then 0 else 1
    ensures old(FaultFree(client) && sha.buffLen < sha.alg.B()) ==> rc == Ok && FaultFree(client)
    ensures !old(client.comm.link.pending) ==> client.shaSlot.ioSz == 0 && Account(client.dma.log) == NothingHeld()
  {
    ghost var before := sha.Value();
    ghost var was := if out == null then [] else out[..];
    var saved := Save(sha);
    rc := DmaBoth(sha, client, input, addr, out);
    if rc == Ok {
      return;
    }
    assert out != null ==> out[..] == was;
    Restore(sha, saved, before);
  }
}
