/**
 AES-GCM over DMA (wh_Client_AesGcmDmaRequest and Response in src/wh_client_crypto.c): up
 to three client buffers are mapped for one request.
 */
module GcmDma {
  import opened Codes
  import opened Comm
  import opened Dma
  import SlotRuns

  /** One buffer of the slot; size zero means it is not mapped. */
  datatype Part = Part(addr: nat, client: nat, sz: nat)

  const NO_PART := Part(0, 0, 0)

  datatype GcmSlot = GcmSlot(input: Part, output: Part, aad: Part)

  const NO_PARTS := GcmSlot(NO_PART, NO_PART, NO_PART)

  /** What the server is told about the three buffers. */
  datatype GcmWire = GcmWire(input: Part, output: Part, aad: Part)

  function PartMapping(p: Part, dir: Direction): Mapping {
    Mapping(p.client, p.addr, p.sz, dir)
  }

  ghost function PartHeld(p: Part, dir: Direction): multiset<Mapping> {
    if p.sz > 0 then multiset{PartMapping(p, dir)} else multiset{}
  }

  ghost function SlotHeld(s: GcmSlot): multiset<Mapping> {
    PartHeld(s.input, ReadDir) + (PartHeld(s.output, WriteDir) + PartHeld(s.aad, ReadDir))
  }

  lemma AddPart(held: multiset<Mapping>, a: multiset<Mapping>, b: multiset<Mapping>, c: multiset<Mapping>)
    ensures multiset{} + a + b + c == a + (b + c)
    ensures b + c == c + b
  {
  }

  /** Result of mapping one buffer, and what is left of the schedule after it. */
  function PartCode(before: Rc, pres: seq<PreEvent>, addr: nat, len: nat): Rc {
    if before != Ok || len == 0 then before else PreResult(pres, addr).0
  }

  function PartRest(before: Rc, pres: seq<PreEvent>, len: nat): seq<PreEvent> {
    if before != Ok || len == 0 then pres else Tail(pres)
  }

  /** Result of mapping input, output and additional data in that order; the first failure stops. */
  function AllCode(pres: seq<PreEvent>, input: nat, output: nat, len: nat, aad: nat, aadLen: nat): Rc {
    var first := PartCode(Ok, pres, input, len);
    var pres1 := PartRest(Ok, pres, len);
    var second := PartCode(first, pres1, output, len);
    PartCode(second, PartRest(first, pres1, len), aad, aadLen)
  }

  /** The ledger entry of one buffer, if it was mapped. */
  function PartPre(p: Part, dir: Direction): seq<DmaCall> {
    if p.sz > 0 then [Pre(Mapping(p.client, p.addr, p.sz, dir))] else []
  }

  function PartPost(p: Part, dir: Direction): seq<DmaCall> {
    if p.sz > 0 then [Post(Mapping(p.client, p.addr, p.sz, dir))] else []
  }

  /** Input mapped for reading, output for writing, additional data for reading, in this order. */
  function Acquired(s: GcmSlot): seq<DmaCall> {
    PartPre(s.input, ReadDir) + PartPre(s.output, WriteDir) + PartPre(s.aad, ReadDir)
  }

  function Released(s: GcmSlot): seq<DmaCall> {
    PartPost(s.input, ReadDir) + PartPost(s.output, WriteDir) + PartPost(s.aad, ReadDir)
  }

  lemma ThreeMore(log: seq<DmaCall>, a: seq<DmaCall>, b: seq<DmaCall>, c: seq<DmaCall>)
    ensures log + a + b + c == log + (a + b + c)
  {
  }

  /** This buffer of the client, whole, or nothing. */
  predicate PartOf(p: Part, client: nat, len: nat) {
    p.sz == 0 || (p.client == client && p.sz == len)
  }

  /** The slot as the run theorems of SlotRuns see it: the bytes mapped of each buffer. */
  function GcmKind(): SlotRuns.Kind<GcmWire, (nat, nat, nat)> {
    SlotRuns.Kind((w: GcmWire) => (w.input.sz, w.output.sz, w.aad.sz), (0, 0, 0))
  }

  class GcmClient {
    const comm: CommClient<GcmWire>
    const dma: DmaPort
    var slot: GcmSlot

    constructor (comm: CommClient<GcmWire>, dma: DmaPort)
      ensures this.comm == comm && this.dma == dma && slot == NO_PARTS
    {
      this.comm, this.dma, slot := comm, dma, NO_PARTS;
    }

    /** The slot records exactly what is mapped, and only while a request is pending. */
    ghost predicate Tidy()
      reads this, comm, dma
    {
      && Account(dma.log) == Balanced(SlotHeld(slot))
      && (slot.input.sz > 0 || slot.output.sz > 0 || slot.aad.sz > 0 ==> comm.link.pending)
    }

    ghost function View(): SlotRuns.State<GcmWire, (nat, nat, nat)>
      reads this, comm
    {
      SlotRuns.State(comm.link, (slot.input.sz, slot.output.sz, slot.aad.sz))
    }

    /** Map one buffer, unless an earlier step failed or the buffer is empty. */
    method MapPart(before: Rc, addr: nat, len: nat, dir: Direction, ghost held: multiset<Mapping>) returns (rc: Rc, part: Part)
      requires Account(dma.log) == Balanced(held)
      modifies dma
      ensures Account(dma.log) == Balanced(held + PartHeld(part, dir))
      ensures rc == PartCode(before, old(dma.pres), addr, len) && dma.pres == PartRest(before, old(dma.pres), len)
      ensures part.sz == (if rc == Ok then len else 0) && (part.sz > 0 ==> part.client == addr)
      ensures part.sz > 0 ==> part.addr == PreResult(old(dma.pres), addr).1
      ensures dma.log == old(dma.log) + PartPre(part, dir)
    {
      rc, part := before, NO_PART;
      if rc == Ok && len > 0 {
        var mapped;
        rc, mapped := dma.Acquire(addr, len, dir);
        if rc == Ok {
          part := Part(mapped, addr, len);
          AccountAppend(old(dma.log), Pre(PartMapping(part, dir)));
        }
      }
      assert held + multiset{} == held;
    }

    /** Release one buffer, if it was mapped. */
    method UnmapPart(part: Part, dir: Direction, ghost rest: multiset<Mapping>)
      requires Account(dma.log) == Balanced(PartHeld(part, dir) + rest)
      modifies dma
      ensures Account(dma.log) == Balanced(rest)
      ensures dma.log == old(dma.log) + PartPost(part, dir)
    {
      if part.sz > 0 {
        AccountAppend(dma.log, Post(PartMapping(part, dir)));
        var _ := dma.Release(PartMapping(part, dir));
        assert multiset{PartMapping(part, dir)} + rest - multiset{PartMapping(part, dir)} == rest;
      } else {
        assert multiset{} + rest == rest;
      }
    }

    /** Release all three. */
    method UnmapAll(s: GcmSlot)
      requires Account(dma.log) == Balanced(SlotHeld(s))
      modifies dma
      ensures Account(dma.log) == NothingHeld()
      ensures dma.log == old(dma.log) + Released(s)
    {
      ghost var log := dma.log;
      ghost var input, output, aad := PartPost(s.input, ReadDir), PartPost(s.output, WriteDir), PartPost(s.aad, ReadDir);
      UnmapPart(s.input, ReadDir, PartHeld(s.output, WriteDir) + PartHeld(s.aad, ReadDir));
      UnmapPart(s.output, WriteDir, PartHeld(s.aad, ReadDir));
      assert PartHeld(s.aad, ReadDir) + multiset{} == PartHeld(s.aad, ReadDir);
      UnmapPart(s.aad, ReadDir, multiset{});
      ThreeMore(log, input, output, aad);
    }

    /** The first half: whichever mapping fails, the slot so far says what is held. */
    method MapAll(input: nat, output: nat, len: nat, aad: nat, aadLen: nat) returns (rc: Rc, s: GcmSlot)
      requires Account(dma.log) == NothingHeld()
      modifies dma
      ensures Account(dma.log) == Balanced(SlotHeld(s))
      ensures rc == Ok ==> s.input.sz == len && s.output.sz == len && s.aad.sz == aadLen
      ensures rc == Ok && len > 0 ==> s.input.client == input && s.output.client == output
      ensures rc == Ok && aadLen > 0 ==> s.aad.client == aad
      ensures rc == AllCode(old(dma.pres), input, output, len, aad, aadLen)
      ensures PartOf(s.input, input, len) && PartOf(s.output, output, len) && PartOf(s.aad, aad, aadLen)
      ensures dma.log == old(dma.log) + Acquired(s)
    {
      ghost var log := dma.log;
      var i, o, a;
      rc, i := MapPart(Ok, input, len, ReadDir, multiset{});
      ghost var held := multiset{} + PartHeld(i, ReadDir);
      rc, o := MapPart(rc, output, len, WriteDir, held);
      rc, a := MapPart(rc, aad, aadLen, ReadDir, held + PartHeld(o, WriteDir));
      s := GcmSlot(i, o, a);
      ThreeMore(log, PartPre(i, ReadDir), PartPre(o, WriteDir), PartPre(a, ReadDir));
      AddPart(multiset{}, PartHeld(i, ReadDir), PartHeld(o, WriteDir), PartHeld(a, ReadDir));
    }

    /** Map, note the mappings in the slot, send; whatever fails releases what was mapped. */
    method MapAndSend(input: nat, output: nat, len: nat, aad: nat, aadLen: nat) returns (rc: Rc, ghost tried: GcmSlot)
      requires Tidy() && !comm.link.pending
      modifies this, comm, dma
      ensures Account(dma.log) == Balanced(SlotHeld(slot))
      ensures slot == if rc == Ok then tried else NO_PARTS
      ensures PartOf(tried.input, input, len) && PartOf(tried.output, output, len) && PartOf(tried.aad, aad, aadLen)
      ensures dma.log == old(dma.log) + Acquired(tried) + if rc == Ok then [] else Released(tried)
      ensures var code := AllCode(old(dma.pres), input, output, len, aad, aadLen);
        if code != Ok then rc == code && comm.link == old(comm.link)
        else
          && tried.input.sz == len && tried.output.sz == len && tried.aad.sz == aadLen
          && Sent(comm.link, rc) == Send(old(comm.link), GcmWire(tried.input, tried.output, tried.aad))
    {
      assert SlotHeld(slot) == multiset{};
      var s;
      rc, s := MapAll(input, output, len, aad, aadLen);
      tried := s;
      ghost var mapped := dma.log;
      if rc == Ok {
        slot := s;
        rc := comm.SendRequest(GcmWire(s.input, s.output, s.aad));
      }
      if rc != Ok {
        UnmapAll(s);
        slot := NO_PARTS;
        assert SlotHeld(slot) == multiset{};
      } else {
        assert mapped + [] == mapped;
      }
    }

    /** wh_Client_AesGcmDmaRequest; the message length stands for IV, tag and key. */
    method GcmRequest(reqLen: nat, commLen: nat, input: nat, output: nat, len: nat, aad: nat, aadLen: nat)
      returns (rc: Rc, ghost w: GcmWire, ghost tried: GcmSlot)
      requires Tidy()
      modifies this, comm, dma
      ensures Tidy()
      ensures old(comm.link.pending) ==> rc == RequestPending
      ensures old(comm.link.pending) || reqLen > commLen ==> rc != Ok && slot == old(slot) && dma.log == old(dma.log)
      ensures rc == Ok ==> comm.link.pending && slot.input.sz == len && slot.output.sz == len && slot.aad.sz == aadLen
      ensures rc == Ok ==>
        comm.link.accepted == old(comm.link.accepted) + [GcmWire(slot.input, slot.output, slot.aad)]
      ensures rc != Ok ==> Account(dma.log) == old(Account(dma.log))
      ensures rc != Ok && !old(comm.link.pending) ==> Account(dma.log) == NothingHeld()
      // whose memory was mapped, in which direction, and what the server is told of it
      ensures rc == Ok ==>
        slot == tried && (len > 0 ==> slot.input.client == input && slot.output.client == output) && (aadLen > 0 ==> slot.aad.client == aad)
      ensures PartOf(tried.input, input, len) && PartOf(tried.output, output, len) && PartOf(tried.aad, aad, aadLen)
      ensures dma.log == old(dma.log) + Acquired(tried) + if rc == Ok then [] else Released(tried)
      ensures comm.link.accepted != old(comm.link.accepted) ==>
        && comm.link.accepted == old(comm.link.accepted) + [GcmWire(tried.input, tried.output, tried.aad)]
        && tried.input.sz == len && tried.output.sz == len && tried.aad.sz == aadLen
      ensures GcmKind().need(w) == (len, len, aadLen)
      ensures reqLen <= commLen ==>
        var mapped := AllCode(old(dma.pres), input, output, len, aad, aadLen) == Ok;
        View() == SlotRuns.Next(GcmKind(), old(View()), SlotRuns.Ask(w, mapped))
    {
      w := GcmWire(Part(0, input, len), Part(0, output, len), Part(0, aad, aadLen));
      tried := NO_PARTS;
      if comm.link.pending {
        rc := RequestPending;
        return;
      }
      if reqLen > commLen {
        rc := BadArgs;
        return;
      }
      rc, tried := MapAndSend(input, output, len, aad, aadLen);
      if AllCode(old(dma.pres), input, output, len, aad, aadLen) == Ok {
        w := GcmWire(tried.input, tried.output, tried.aad);
      }
      assert rc != Ok ==> SlotHeld(slot) == multiset{};
    }

    /** Release whatever the slot records, and mark it released. */
    method ReleaseSlot()
      requires Account(dma.log) == Balanced(SlotHeld(slot))
      modifies this, dma
      ensures Account(dma.log) == NothingHeld()
      ensures dma.log == old(dma.log) + Released(old(slot))
      ensures slot.input.sz == 0 && slot.output.sz == 0 && slot.aad.sz == 0
    {
      UnmapAll(slot);
      slot := GcmSlot(slot.input.(sz := 0), slot.output.(sz := 0), slot.aad.(sz := 0));
    }

    /** wh_Client_AesGcmDmaResponse: every outcome but "not ready" releases all that is held. */
    method GcmResponse() returns (rc: Rc)
      requires Tidy()
      modifies this, comm, dma
      ensures Tidy()
      ensures var r := Recv(old(comm.link));
        && comm.link == r.link
        && rc == Outcome(r)
        && (rc == NotReady ==> slot == old(slot) && dma.log == old(dma.log))
        && View() == SlotRuns.Next(GcmKind(), old(View()), SlotRuns.Poll)
        && (rc != NotReady ==> dma.log == old(dma.log) + Released(old(slot)))
        && (rc != NotReady ==> Account(dma.log) == NothingHeld() && (comm.link.pending <==> Lingers(NextRecv(old(comm.link.recvs)))))
    {
      var reply;
      rc, reply := comm.RecvResponse();
      if rc == NotReady {
        return;
      }
      if rc == Ok {
        rc := ReplyCode(reply);
      }
      ReleaseSlot();
      assert SlotHeld(slot) == multiset{};
    }
  }
}
