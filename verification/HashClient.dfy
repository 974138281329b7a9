/**
 The client side of streaming hashes (src/wh_client_crypto.c): a partial block is kept in
 the context, whole blocks go to the server, and the chaining state comes back.
 */
module HashClient {
  import opened Codes
  import opened Blocks
  import opened HashSpec
  import opened HashServer
  import opened Comm
  import opened Dma

  /** Room in the context for a partial block: one block, or the 200-byte sponge buffer. */
  function BufferLen(v: Variant): (n: nat)
    ensures n >= BlockSize(v)
  {
    if FamilyOf(v) == Sponge then 200 else BlockSize(v)
  }

  /** Room in the snapshot taken before a request is built: one block; 144 bytes for any sponge. */
  function SnapshotLen(v: Variant): (n: nat)
    ensures n >= BlockSize(v)
  {
    if FamilyOf(v) == Sponge then 144 else BlockSize(v)
  }

  /** The DMA mapping that outlives an update request; size zero means none is held. */
  datatype ShaSlot = ShaSlot(ioAddr: nat, clientAddr: nat, ioSz: nat)

  const NO_SLOT := ShaSlot(0, 0, 0)

  class Client<S> {
    const comm: CommClient<Request<S>>
    const dma: DmaPort
    const knowsVariant: bool  // the server was built with SHA-512/t
    var shaSlot: ShaSlot

    constructor (comm: CommClient<Request<S>>, dma: DmaPort, knowsVariant: bool)
      ensures this.comm == comm && this.dma == dma && this.knowsVariant == knowsVariant && shaSlot == NO_SLOT
    {
      this.comm, this.dma, this.knowsVariant, this.shaSlot := comm, dma, knowsVariant, NO_SLOT;
    }

    predicate Valid()
      reads this, comm
    {
      comm.link.pending ==> comm.link.accepted != []
    }
  }

  /** The bytes an update sends, and the bytes that wait. */
  function WireBytes<S>(alg: Alg<S>, all: seq<byte>): seq<byte> {
    all[..Whole(|all|, alg.B())]
  }

  function WaitingBytes<S>(alg: Alg<S>, all: seq<byte>): seq<byte> {
    all[Whole(|all|, alg.B())..]
  }

  lemma SplitIsWhole<S>(alg: Alg<S>, all: seq<byte>, wire: seq<byte>, rest: seq<byte>)
    requires all == wire + rest && |wire| % alg.B() == 0 && |rest| < alg.B()
    ensures wire == WireBytes(alg, all) && rest == WaitingBytes(alg, all)
  {
    ModOfSum(|wire|, |rest|, alg.B());
    SmallIsItsRemainder(|rest|, alg.B());
  }

  /** Blocks taken from the middle of the input keep everything in order. */
  lemma Assembled(all: seq<byte>, input: seq<byte>, first: seq<byte>, rest: seq<byte>, from: nat, i: nat)
    requires from <= i <= |input| && |first| + |rest| + (|input| - from) == |all|
    requires all == (first + rest) + input[from..]
    requires rest != [] ==> from == |input|
    ensures all == (first + input[from..i]) + (rest + input[i..])
  {
    assert input[from..] == input[from..i] + input[i..];
  }

  /** What an update response reports: a link error, the server's error, or success. */
  function UpdateCode<S>(alg: Alg<S>, known: bool, r: Received<Request<S>>): Rc
    requires r.rc == Ok ==> r.link.accepted != []
  {
    if Outcome(r) != Ok then Outcome(r)
    else if Serve(alg, known, r.link.accepted[|r.link.accepted| - 1]).None? then BadArgs
    else Ok
  }

  /** The chaining state and counters an answered update leaves in the context. */
  ghost predicate Answered<S>(alg: Alg<S>, known: bool, req: Request<S>, len: Len, digest': S, len': Len) {
    var out := Serve(alg, known, req);
    && out.Some?
    && digest' == out.value.digest
    && len' == if FamilyOf(alg.variant) == Sponge then len else WireLen(FamilyOf(alg.variant), out.value.len)
  }

  /** memcpy */
  method CopyInto(dst: array<byte>, pos: nat, bytes: seq<byte>)
    requires pos + |bytes| <= dst.Length
    modifies dst
    ensures dst[..pos + |bytes|] == old(dst[..pos]) + bytes
  {
    forall k | 0 <= k < |bytes| {
      dst[pos + k] := bytes[k];
    }
  }

  class Context<S(!new)> {
    const alg: Alg<S>
    const buffer: array<byte>
    var digest: S
    var loLen: nat
    var hiLen: nat
    var buffLen: nat

    ghost predicate Valid()
      reads this
    {
      && Sound(alg) && alg.commLen < 0x1_0000
      && buffer.Length == BufferLen(alg.variant)
      && buffLen <= buffer.Length
      && ValidLen(Len(loLen, hiLen))
    }

    ghost function Value(): Ctx<S>
      requires Valid()
      reads this, buffer
    {
      Ctx(digest, Len(loLen, hiLen), buffer[..buffLen])
    }

    constructor (alg: Alg<S>)
      requires Sound(alg) && alg.commLen < 0x1_0000
      ensures Valid() && this.alg == alg && Value() == Init(alg) && fresh(buffer)
    {
      this.alg := alg;
      digest, loLen, hiLen, buffLen := alg.iv, 0, 0, 0;
      buffer := new byte[BufferLen(alg.variant)](_ => 0);
    }

    /** _Sha256UpdatePerCallCapacity, in 32-bit arithmetic. */
    function Capacity(): nat
      requires buffLen <= 200
      reads this
    {
      (alg.M() + (TWO32 + alg.B() - 1 - buffLen) % TWO32) % TWO32
    }

    lemma CapacityIs()
      requires Valid() && buffLen < alg.B()
      ensures Capacity() == alg.M() + (alg.B() - 1 - buffLen)
    {
      var room := alg.B() - 1 - buffLen;
      DivModUnique(TWO32 + room, TWO32, 1, room);
      SmallIsItsRemainder(alg.M() + room, TWO32);
    }

    /** Fill the partial block from the front of the input. */
    method TopUp(input: seq<byte>) returns (i: nat)
      requires Valid() && 0 < buffLen < alg.B()
      modifies this`buffLen, buffer
      ensures Valid() && i <= |input| && buffLen <= alg.B()
      ensures buffer[..buffLen] == old(buffer[..buffLen]) + input[..i]
      ensures i == |input| || buffLen == alg.B()
    {
      ghost var start := buffer[..buffLen];
      i := 0;
      while i < |input| && buffLen < alg.B()
        invariant i <= |input| && buffLen <= alg.B() && Valid()
        invariant buffer[..buffLen] == start + input[..i]
      {
        buffer[buffLen] := input[i];
        buffLen, i := buffLen + 1, i + 1;
        assert input[..i] == input[..i - 1] + [input[i - 1]];
      }
    }

    /** Keep the end of the input in the context. */
    method Stash(input: seq<byte>, from: nat)
      requires Valid() && from <= |input| && buffLen + (|input| - from) < alg.B()
      modifies this`buffLen, buffer
      ensures Valid() && buffLen < alg.B()
      ensures buffer[..buffLen] == old(buffer[..buffLen]) + input[from..]
    {
      ghost var start := buffer[..buffLen];
      ghost var start0 := buffLen;
      var i := from;
      while i < |input|
        invariant from <= i <= |input| && Valid()
        invariant buffLen == start0 + (i - from)
        invariant buffer[..buffLen] == start + input[from..i]
      {
        buffer[buffLen] := input[i];
        buffLen, i := buffLen + 1, i + 1;
        assert input[from..i] == input[from..i - 1] + [input[i - 1]];
      }
      assert input[from..i] == input[from..];
    }

    /** Copy as many whole blocks of the input as fit behind what is already in the message. */
    method PackBlocks(input: seq<byte>, from: nat, wire: array<byte>, start: nat) returns (wirePos: nat, i: nat)
      requires Valid() && wire.Length == alg.M()
      requires from <= |input| && start % alg.B() == 0 && start <= alg.M()
      modifies wire
      ensures from <= i <= |input| && start <= wirePos <= alg.M()
      ensures wirePos % alg.B() == 0
      ensures wire[..wirePos] == old(wire[..start]) + input[from..i]
      ensures |input| - i < alg.B() || wirePos == alg.M()
    {
      CapacityIsAligned(alg);
      ghost var head := wire[..start];
      wirePos, i := start, from;
      while |input| - i >= alg.B() && wirePos + alg.B() <= alg.M()
        invariant from <= i <= |input| && start <= wirePos <= alg.M()
        invariant wirePos % alg.B() == 0
        invariant wire[..wirePos] == head + input[from..i]
      {
        CopyInto(wire, wirePos, input[i..i + alg.B()]);
        assert input[from..i + alg.B()] == input[from..i] + input[i..i + alg.B()];
        NextIsAligned(wirePos, alg.B());
        wirePos, i := wirePos + alg.B(), i + alg.B();
      }
      if wirePos < alg.M() && |input| - i >= alg.B() {
        RoomForBlock(wirePos, alg.M(), alg.B());
      }
    }

    /** Top up the partial block; a completed one becomes the first of the message. */
    method CompleteBlock(input: seq<byte>, wire: array<byte>) returns (wirePos: nat, i: nat)
      requires Valid() && buffLen < alg.B() && wire.Length == alg.M() && wire != buffer
      modifies this`buffLen, buffer, wire
      ensures Valid() && buffLen < alg.B() && i <= |input|
      ensures wirePos <= alg.M() && wirePos % alg.B() == 0
      ensures wire[..wirePos] + buffer[..buffLen] == old(buffer[..buffLen]) + input[..i]
      ensures buffLen > 0 ==> i == |input|
    {
      CapacityIsAligned(alg);
      wirePos, i := 0, 0;
      if buffLen > 0 {
        i := TopUp(input);
        if buffLen == alg.B() {
          CopyInto(wire, 0, buffer[..alg.B()]);
          wirePos, buffLen := alg.B(), 0;
          DivModUnique(alg.B(), alg.B(), 1, 0);
        }
      }
    }

    /** Pending bytes and input into whole blocks for the message and a rest for the context. */
    method PackMessage(input: seq<byte>) returns (payload: seq<byte>)
      requires Valid() && buffLen < alg.B() && |input| <= alg.M() + (alg.B() - 1 - buffLen)
      modifies this`buffLen, buffer
      ensures Valid() && buffLen < alg.B()
      ensures payload == WireBytes(alg, old(buffer[..buffLen]) + input) && |payload| <= alg.M()
      ensures buffer[..buffLen] == WaitingBytes(alg, old(buffer[..buffLen]) + input)
    {
      ghost var all := buffer[..buffLen] + input;
      var wire := new byte[alg.M()](_ => 0);
      var wirePos, i := CompleteBlock(input, wire);
      ghost var first, rest, from := wire[..wirePos], buffer[..buffLen], i;
      wirePos, i := PackBlocks(input, i, wire, wirePos);
      payload := wire[..wirePos];
      Assembled(all, input, first, rest, from, i);
      Stash(input, i);
      SplitIsWhole(alg, all, payload, buffer[..buffLen]);
    }

    /** wh_Client_Sha256UpdateRequest and its copies. */
    method UpdateRequest(client: Client<S>, input: seq<byte>) returns (rc: Rc, sent: bool)
      requires Valid() && client.Valid()
      modifies this`buffLen, buffer, client.comm
      ensures Valid() && client.Valid()
      ensures var all := old(buffer[..buffLen]) + input;
        var link := old(client.comm.link);
        if old(buffLen) >= alg.B() || |input| > old(Capacity()) then
          rc == BadArgs && !sent && client.comm.link == link && buffer[..buffLen] == old(buffer[..buffLen])
        else if WireBytes(alg, all) == [] then
          rc == Ok && !sent && client.comm.link == link && buffer[..buffLen] == all && buffLen < alg.B()
        else
          var s := Send(link, Request(false, digest, Len(loLen, hiLen), WireBytes(alg, all), []));
          && client.comm.link == s.link && rc == s.rc && sent == (rc == Ok)
          && buffer[..buffLen] == (if sent then WaitingBytes(alg, all) else old(buffer[..buffLen]))
          && buffLen < alg.B()
    {
      sent := false;
      if buffLen >= alg.B() || |input| > Capacity() {
        return BadArgs, false;
      }
      CapacityIs();
      ghost var all := buffer[..buffLen] + input;
      if input == [] {
        assert all == buffer[..buffLen];
        SmallIsItsRemainder(|all|, alg.B());
        return Ok, false;
      }
      var savedLen := buffLen;
      var saved := new byte[SnapshotLen(alg.variant)](_ => 0);
      CopyInto(saved, 0, buffer[..buffLen]);
      ghost var pending := buffer[..buffLen];
      assert saved[..savedLen] == pending;
      var payload := PackMessage(input);
      if payload == [] {
        assert all == WireBytes(alg, all) + WaitingBytes(alg, all);
        return Ok, false;
      }
      rc := client.comm.SendRequest(Request(false, digest, Len(loLen, hiLen), payload, []));
      if rc == Ok {
        sent := true;
      } else {
        buffLen := savedLen;
        assert saved[..savedLen] == pending;
        CopyInto(buffer, 0, saved[..savedLen]);
      }
    }

    /** wh_Client_Sha256UpdateResponse and its copies: the state comes back from the server. */
    method UpdateResponse(client: Client<S>) returns (rc: Rc)
      requires Valid() && client.Valid()
      modifies this`digest, this`loLen, this`hiLen, client.comm
      ensures Valid() && client.Valid()
      ensures client.comm.link == Recv(old(client.comm.link)).link
      ensures rc == UpdateCode(alg, client.knowsVariant, Recv(old(client.comm.link)))
      ensures rc == NotReady <==> Recv(old(client.comm.link)).rc == NotReady
      ensures rc != Ok ==> Value() == old(Value())
      ensures rc == Ok ==> Answered(alg, client.knowsVariant, old(client.comm.link.accepted)[|old(client.comm.link.accepted)| - 1],
                                    old(Len(loLen, hiLen)), digest, Len(loLen, hiLen))
    {
      var reply;
      rc, reply := client.comm.RecvResponse();
      if rc != Ok {
        return;
      }
      rc := ReplyCode(reply);
      if rc != Ok {
        return;
      }
      var accepted := client.comm.link.accepted;
      var served := Serve(alg, client.knowsVariant, accepted[|accepted| - 1]);
      match served {
        case None =>
          rc := BadArgs;
        case Some(out) =>
          digest := out.digest;
          if FamilyOf(alg.variant) != Sponge {
            loLen, hiLen := out.len.lo % TWO32, out.len.hi % TWO32;
          }
      }
    }
  }
}
