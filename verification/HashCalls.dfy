/**
 The blocking hash calls (wh_Client_Sha256 and its copies, _Sha3Oneshot): chunks of the
 input go out one request at a time, each answered before the next is built.
 */
module HashCalls {
  import opened Codes
  import opened Blocks
  import opened HashSpec
  import opened HashServer
  import opened HashClient
  import opened Comm

  /** The context as a C struct copy keeps it. */
  datatype Saved<S> = Saved(digest: S, len: Len, buffLen: nat, bytes: seq<byte>)

  /** The copy holds the context, as far as its byte array reaches. */
  ghost predicate Keeps<S>(alg: Alg<S>, saved: Saved<S>, c: Ctx<S>) {
    var n := Min(saved.buffLen, SnapshotLen(alg.variant));
    && c.digest == saved.digest && c.len == saved.len && |c.pending| == saved.buffLen <= BufferLen(alg.variant)
    && ValidLen(saved.len)
    && |saved.bytes| == SnapshotLen(alg.variant) && saved.bytes[..n] == c.pending[..n]
  }

  function Save<S(!new)>(sha: Context<S>): (saved: Saved<S>)
    requires sha.Valid()
    reads sha, sha.buffer
    ensures Keeps(sha.alg, saved, sha.Value())
  {
    Saved(sha.digest, Len(sha.loLen, sha.hiLen), sha.buffLen, sha.buffer[..SnapshotLen(sha.alg.variant)])
  }

  /** Put the context back as the caller passed it. */
  method Restore<S(!new)>(sha: Context<S>, saved: Saved<S>, ghost before: Ctx<S>)
    requires sha.Valid() && Keeps(sha.alg, saved, before)
    requires |before.pending| < sha.alg.B() || sha.Value() == before
    modifies sha, sha.buffer
    ensures sha.Valid() && sha.Value() == before
  {
    ghost var all := sha.buffer[..];
    sha.digest, sha.loLen, sha.hiLen, sha.buffLen := saved.digest, saved.len.lo, saved.len.hi, saved.buffLen;
    forall k | 0 <= k < |saved.bytes| {
      sha.buffer[k] := saved.bytes[k];
    }
    if saved.buffLen <= |saved.bytes| {
      assert sha.buffer[..saved.buffLen] == saved.bytes[..saved.buffLen];
    } else {
      assert forall k :: 0 <= k < |saved.bytes| ==> saved.bytes[..|saved.bytes|][k] == before.pending[..|saved.bytes|][k];
      assert sha.buffer[..saved.buffLen] == all[..saved.buffLen];
    }
  }

  // ----------------------------------------------------------------- one chunk

  /** The request just sent is about to be answered: nothing is scheduled to go wrong, and the server has an answer. */
  predicate WillAnswer<S>(alg: Alg<S>, known: bool, l: Link<Request<S>>) {
    && l.pending && l.accepted != [] && l.lastReq == |l.accepted| && l.sends == [] && l.recvs == []
    && Serve(alg, known, l.accepted[|l.accepted| - 1]).Some?
  }

  lemma AnswerComes<S>(alg: Alg<S>, known: bool, l: Link<Request<S>>)
    ensures WillAnswer(alg, known, l) ==> UpdateCode(alg, known, Recv(l)) == Ok && Calm(Recv(l).link)
  {
  }

  /** Poll for the response of the update in flight. */
  method AwaitUpdate<S(!new)>(sha: Context<S>, client: Client<S>) returns (rc: Rc)
    requires sha.Valid() && client.Valid() && client.comm.link.pending
    modifies sha`digest, sha`loLen, sha`hiLen, client.comm
    ensures sha.Valid() && client.Valid() && rc != NotReady
    ensures client.comm.link.accepted == old(client.comm.link.accepted)
    ensures rc != Ok ==> sha.Value() == old(sha.Value())
    ensures rc == Ok ==> !client.comm.link.pending
    ensures old(WillAnswer(sha.alg, client.knowsVariant, client.comm.link)) ==> rc == Ok && Calm(client.comm.link)
    ensures rc == Ok ==> Answered(sha.alg, client.knowsVariant, old(client.comm.link.accepted)[|old(client.comm.link.accepted)| - 1],
                                  old(Len(sha.loLen, sha.hiLen)), sha.digest, Len(sha.loLen, sha.hiLen))
  {
    ghost var accepted := client.comm.link.accepted;
    ghost var req := accepted[|accepted| - 1];
    ghost var len := Len(sha.loLen, sha.hiLen);
    ghost var calm := WillAnswer(sha.alg, client.knowsVariant, client.comm.link);
    rc := NotReady;
    while rc == NotReady
      invariant sha.Valid() && client.Valid() && client.comm.link.accepted == accepted
      invariant client.comm.link.pending || (rc != NotReady)
      invariant rc != Ok ==> sha.Value() == old(sha.Value())
      invariant rc == Ok ==> !client.comm.link.pending
      invariant rc == Ok ==> Answered(sha.alg, client.knowsVariant, req, len, sha.digest, Len(sha.loLen, sha.hiLen))
      invariant calm ==> if rc == NotReady then client.comm.link == old(client.comm.link) else rc == Ok && Calm(client.comm.link)
      decreases |client.comm.link.recvs|, rc == NotReady
    {
      rc := sha.UpdateResponse(client);
    }
  }

  /** An answered update of these whole blocks leaves the context that absorbing the data leaves. */
  lemma AnsweredIsAbsorb<S>(alg: Alg<S>, known: bool, c: Ctx<S>, data: seq<byte>,
                            inlined: seq<byte>, dma: seq<byte>, digest': S, len': Len)
    requires ValidLen(c.len) && Fits32(|inlined|) && Fits32(|dma|)
    requires |inlined| % alg.B() == 0 && |dma| % alg.B() == 0
    requires inlined + dma == WireBytes(alg, c.pending + data)
    requires Answered(alg, known, Request(false, c.digest, c.len, inlined, dma), c.len, digest', len')
    ensures Ctx(digest', len', WaitingBytes(alg, c.pending + data)) == Absorb(alg, c, data)
  {
    var f := FamilyOf(alg.variant);
    ServedUpdate(alg, known, Request(false, c.digest, c.len, inlined, dma));
    if f != Sponge {
      var l := Advance(f, c.len, |inlined| + |dma|);
      SmallIsItsRemainder(l.lo, TWO32);
      SmallIsItsRemainder(l.hi, TWO32);
    }
  }

  /** Data that completes no block only joins the pending bytes. */
  lemma BufferedIsAbsorb<S>(alg: Alg<S>, c: Ctx<S>, data: seq<byte>)
    requires ValidLen(c.len) && WireBytes(alg, c.pending + data) == []
    ensures Absorb(alg, c, data) == Ctx(c.digest, c.len, c.pending + data)
  {
    AdvanceByNothing(FamilyOf(alg.variant), c.len);
  }

  /** Messages one update call sends for this many pending and new bytes. */
  function Messages<S>(alg: Alg<S>, n: nat): nat {
    if Whole(n, alg.B()) == 0 then 0 else 1
  }

  /** Wait for the update that carries this chunk; answered, it has absorbed it. */
  method AwaitChunk<S(!new)>(sha: Context<S>, client: Client<S>, ghost c: Ctx<S>, ghost chunk: seq<byte>) returns (rc: Rc)
    requires sha.Valid() && client.Valid() && client.comm.link.pending
    requires Fits32(|c.pending| + |chunk|)
    requires sha.Value() == Ctx(c.digest, c.len, WaitingBytes(sha.alg, c.pending + chunk))
    requires client.comm.link.accepted[|client.comm.link.accepted| - 1]
          == Request(false, c.digest, c.len, WireBytes(sha.alg, c.pending + chunk), [])
    modifies sha`digest, sha`loLen, sha`hiLen, client.comm
    ensures sha.Valid() && client.Valid() && client.comm.link.accepted == old(client.comm.link.accepted)
    ensures rc == Ok ==> sha.Value() == Absorb(sha.alg, c, chunk)
    ensures old(client.comm.link.lastReq == |client.comm.link.accepted| && client.comm.link.sends == [] && client.comm.link.recvs == []) ==>
      rc == Ok && Calm(client.comm.link)
  {
    ghost var wire := WireBytes(sha.alg, c.pending + chunk);
    WholeIsAligned(|c.pending + chunk|, sha.alg.B());
    ServedUpdate(sha.alg, client.knowsVariant, Request(false, c.digest, c.len, wire, []));
    rc := AwaitUpdate(sha, client);
    if rc == Ok {
      assert wire + [] == wire;
      AnsweredIsAbsorb(sha.alg, client.knowsVariant, c, chunk, wire, [], sha.digest, Len(sha.loLen, sha.hiLen));
    }
  }

  /** One update request and its response. */
  method UpdateChunk<S(!new)>(sha: Context<S>, client: Client<S>, chunk: seq<byte>) returns (rc: Rc)
    requires sha.Valid() && client.Valid() && |chunk| <= sha.Capacity()
    modifies sha, sha.buffer, client.comm
    ensures sha.Valid() && client.Valid()
    ensures old(sha.buffLen) >= sha.alg.B() ==> rc == BadArgs && sha.Value() == old(sha.Value())
    ensures old(sha.buffLen) < sha.alg.B() ==> sha.buffLen < sha.alg.B()
    ensures rc == Ok ==> sha.Value() == Absorb(sha.alg, old(sha.Value()), chunk)
    ensures rc == Ok ==> client.comm.Count() == old(client.comm.Count() + Messages(sha.alg, sha.buffLen + |chunk|))
    ensures old(client.comm.link.pending) ==> client.comm.link == old(client.comm.link)
    ensures old(Calm(client.comm.link) && sha.buffLen < sha.alg.B()) ==> rc == Ok && Calm(client.comm.link)
  {
    ghost var c := sha.Value();
    if sha.buffLen < sha.alg.B() {
      sha.CapacityIs();
    }
    var sent;
    rc, sent := sha.UpdateRequest(client, chunk);
    if rc == Ok && sent {
      rc := AwaitChunk(sha, client, c, chunk);
    } else if rc == Ok {
      BufferedIsAbsorb(sha.alg, c, chunk);
    }
  }

  // ------------------------------------------------------------- the whole input

  /** Messages a blocking update of n bytes takes when p bytes are pending. */
  function Rounds<S>(alg: Alg<S>, p: nat, n: nat): nat
    requires alg.M() > 0
  {
    CeilDiv(Whole(p + n, alg.B()), alg.M())
  }

  lemma OneMoreRound(w: nat, m: nat)
    requires m > 0
    ensures CeilDiv(m + w, m) == 1 + CeilDiv(w, m)
  {
    if w > 0 {
      DivModUnique(m + w - 1, m, (w - 1) / m + 1, (w - 1) % m);
    } else {
      DivModUnique(m - 1, m, 0, m - 1);
    }
  }

  lemma FullRound(rest: nat, b: nat, m: nat)
    requires 0 < b <= m && m % b == 0
    ensures Whole(m + b - 1, b) == m && (m + b - 1) % b == b - 1
    ensures CeilDiv(Whole(m + b - 1 + rest, b), m) == 1 + CeilDiv(Whole(b - 1 + rest, b), m)
  {
    ModOfSum(m, b - 1, b);
    SmallIsItsRemainder(b - 1, b);
    ModOfSum(m, b - 1 + rest, b);
    OneMoreRound(Whole(b - 1 + rest, b), m);
  }

  lemma LastRound(t: nat, b: nat, m: nat)
    requires 0 < b <= m && m % b == 0 && t < m + b
    ensures CeilDiv(Whole(t, b), m) == if Whole(t, b) == 0 then 0 else 1
    ensures Whole(t % b, b) == 0
  {
    var w := Whole(t, b);
    WholeIsAligned(t, b);
    if w > m {
      RoomForBlock(m, w, b);
    }
    CeilDivIs(w, m, if w == 0 then 0 else 1);
    SmallIsItsRemainder(t % b, b);
  }

  /** A full chunk fills its message; the last chunk needs at most one. */
  lemma RoundsStep<S>(alg: Alg<S>, p: nat, n: nat, chunk: nat)
    requires alg.M() > 0 && p < alg.B()
    requires chunk == Min(n, alg.M() + (alg.B() - 1 - p))
    ensures Rounds(alg, p, n) == Messages(alg, p + chunk) + Rounds(alg, (p + chunk) % alg.B(), n - chunk)
  {
    CapacityIsAligned(alg);
    if chunk < n {
      FullRound(n - chunk, alg.B(), alg.M());
    } else {
      LastRound(p + n, alg.B(), alg.M());
    }
  }

  /** What a blocking update comes to after `sent` messages: the context it leaves and all its messages. */
  ghost function Goal<S>(alg: Alg<S>, c: Ctx<S>, data: seq<byte>, sent: nat): (Ctx<S>, nat)
    requires alg.M() > 0 && ValidLen(c.len)
  {
    (Absorb(alg, c, data), sent + Rounds(alg, |c.pending|, |data|))
  }

  lemma GoalReached<S>(alg: Alg<S>, c: Ctx<S>, sent: nat)
    requires alg.M() > 0 && ValidLen(c.len) && |c.pending| < alg.B()
    ensures Goal(alg, c, [], sent) == (c, sent)
  {
    AbsorbNothing(alg, c);
    SmallIsItsRemainder(|c.pending|, alg.B());
  }

  /** A chunk and its message leave the goal where it was. */
  lemma ChunkKeepsGoal<S>(alg: Alg<S>, c: Ctx<S>, data: seq<byte>, chunk: nat, c': Ctx<S>, sent: nat)
    requires alg.M() > 0 && ValidLen(c.len) && |c.pending| < alg.B()
    requires chunk == Min(|data|, alg.M() + (alg.B() - 1 - |c.pending|))
    requires c' == Absorb(alg, c, data[..chunk])
    ensures Goal(alg, c', data[chunk..], sent + Messages(alg, |c.pending| + chunk)) == Goal(alg, c, data, sent)
  {
    RoundsStep(alg, |c.pending|, |data|, chunk);
    AbsorbInTwo(alg, c, data, chunk);
    AbsorbLeaves(alg, c, data[..chunk]);
  }

  lemma AbsorbInTwo<S>(alg: Alg<S>, c: Ctx<S>, data: seq<byte>, n: nat)
    requires ValidLen(c.len) && n <= |data|
    ensures Absorb(alg, Absorb(alg, c, data[..n]), data[n..]) == Absorb(alg, c, data)
  {
    AbsorbAppend(alg, c, data[..n], data[n..]);
    assert data[..n] + data[n..] == data;
  }

  lemma AbsorbLeaves<S>(alg: Alg<S>, c: Ctx<S>, data: seq<byte>)
    requires ValidLen(c.len)
    ensures |Absorb(alg, c, data).pending| == (|c.pending| + |data|) % alg.B()
  {
  }

  /** One pass of the loop: as much of the data as one update call can take. */
  method NextChunk<S(!new)>(sha: Context<S>, client: Client<S>, data: seq<byte>) returns (rc: Rc, chunk: nat)
    requires sha.Valid() && client.Valid() && data != []
    modifies sha, sha.buffer, client.comm
    ensures sha.Valid() && client.Valid() && chunk <= |data|
    ensures old(sha.buffLen) >= sha.alg.B() ==> rc == BadArgs && sha.Value() == old(sha.Value())
    ensures old(sha.buffLen) < sha.alg.B() ==> sha.buffLen < sha.alg.B() && chunk > 0
    ensures rc == Ok ==>
      Goal(sha.alg, sha.Value(), data[chunk..], client.comm.Count()) == old(Goal(sha.alg, sha.Value(), data, client.comm.Count()))
    ensures old(client.comm.link.pending) ==> client.comm.link == old(client.comm.link)
    ensures old(Calm(client.comm.link) && sha.buffLen < sha.alg.B()) ==> rc == Ok && Calm(client.comm.link)
  {
    ghost var before, sent := sha.Value(), client.comm.Count();
    if sha.buffLen < sha.alg.B() {
      sha.CapacityIs();
    }
    chunk := Min(|data|, sha.Capacity());
    rc := UpdateChunk(sha, client, data[..chunk]);
    if rc == Ok {
      ChunkKeepsGoal(sha.alg, before, data, chunk, sha.Value(), sent);
    }
  }

  /** The update half of a blocking call. */
  method UpdateAll<S(!new)>(sha: Context<S>, client: Client<S>, input: seq<byte>) returns (rc: Rc)
    requires sha.Valid() && client.Valid() && |input| < TWO32
    modifies sha, sha.buffer, client.comm
    ensures sha.Valid() && client.Valid()
    ensures old(sha.buffLen) >= sha.alg.B() ==>
      rc == (if input == [] then Ok else BadArgs) && sha.Value() == old(sha.Value())
    ensures old(sha.buffLen) < sha.alg.B() ==> sha.buffLen < sha.alg.B()
    ensures rc == Ok && old(sha.buffLen) < sha.alg.B() ==>
      (sha.Value(), client.comm.Count()) == old(Goal(sha.alg, sha.Value(), input, client.comm.Count()))
    ensures old(client.comm.link.pending) ==> client.comm.link == old(client.comm.link)
    ensures old(Calm(client.comm.link) && sha.buffLen < sha.alg.B()) ==> rc == Ok && Calm(client.comm.link)
  {
    ghost var c := sha.Value();
    ghost var goal := Goal(sha.alg, c, input, client.comm.Count());
    var consumed := 0;
    assert input[0..] == input;
    rc := Ok;
    while rc == Ok && consumed < |input|
      invariant sha.Valid() && client.Valid() && consumed <= |input|
      invariant |c.pending| >= sha.alg.B() ==>
        sha.Value() == c && (if rc == Ok then consumed == 0 else rc == BadArgs && input != [])
      invariant |c.pending| < sha.alg.B() ==> sha.buffLen < sha.alg.B()
      invariant rc == Ok && |c.pending| < sha.alg.B() ==>
        Goal(sha.alg, sha.Value(), input[consumed..], client.comm.Count()) == goal
      invariant old(client.comm.link.pending) ==> client.comm.link == old(client.comm.link)
      invariant old(Calm(client.comm.link)) && |c.pending| < sha.alg.B() ==> rc == Ok && Calm(client.comm.link)
      decreases |input| - consumed, rc == Ok
    {
      var chunk;
      rc, chunk := NextChunk(sha, client, input[consumed..]);
      if rc == Ok {
        assert input[consumed..][chunk..] == input[consumed + chunk..];
        consumed := consumed + chunk;
      }
    }
    if rc == Ok && |c.pending| < sha.alg.B() {
      GoalReached(sha.alg, sha.Value(), client.comm.Count());
    }
  }

  // --------------------------------------------------------------------- the end

  /** wh_Client_Sha256FinalRequest and its copies: the partial block goes inline. */
  method FinalRequest<S(!new)>(sha: Context<S>, client: Client<S>) returns (rc: Rc)
    requires sha.Valid() && client.Valid()
    modifies client.comm
    ensures client.Valid()
    ensures var link := old(client.comm.link);
      if sha.buffLen >= sha.alg.B() then rc == BadArgs && client.comm.link == link
      else Sent(client.comm.link, rc) == Send(link, Request(true, sha.digest, Len(sha.loLen, sha.hiLen), sha.buffer[..sha.buffLen], []))
  {
    if sha.buffLen >= sha.alg.B() {
      return BadArgs;
    }
    rc := client.comm.SendRequest(Request(true, sha.digest, Len(sha.loLen, sha.hiLen), sha.buffer[..sha.buffLen], []));
  }

  method WriteDigest(out: array<byte>, digest: seq<byte>)
    requires |digest| <= out.Length
    modifies out
    ensures out[..] == digest + old(out[|digest|..])
  {
    forall k | 0 <= k < |digest| {
      out[k] := digest[k];
    }
  }

  /** wh_Client_Sha256FinalResponse and its copies: the digest goes out and the context starts over. */
  method FinalResponse<S(!new)>(sha: Context<S>, client: Client<S>, out: array<byte>) returns (rc: Rc)
    requires sha.Valid() && client.Valid() && out != sha.buffer && out.Length >= DigestSize(sha.alg.variant)
    modifies sha`digest, sha`loLen, sha`hiLen, sha`buffLen, client.comm, out
    ensures sha.Valid() && client.Valid()
    ensures var r := Recv(old(client.comm.link));
      && client.comm.link == r.link
      && (if r.rc != Ok then rc == r.rc
          else if ReplyCode(r.reply) != Ok then rc == ReplyCode(r.reply)
          else
            var served := Serve(sha.alg, client.knowsVariant, r.link.accepted[|r.link.accepted| - 1]);
            if served.None? then rc == BadArgs
            else
              && rc == Ok && sha.Value() == Init(sha.alg)
              && |ClientDigest(sha.alg, served.value.hash)| <= out.Length
              && out[..|ClientDigest(sha.alg, served.value.hash)|] == ClientDigest(sha.alg, served.value.hash))
    ensures rc != Ok ==> sha.Value() == old(sha.Value())
    ensures out[DigestSize(sha.alg.variant)..] == old(out[DigestSize(sha.alg.variant)..])
    ensures rc != Ok ==> out[..] == old(out[..])
  {
    var reply;
    rc, reply := client.comm.RecvResponse();
    if rc != Ok {
      return;
    }
    rc := ReplyCode(reply);
    if rc != Ok {
      return;
    }
    var accepted := client.comm.link.accepted;
    var served := Serve(sha.alg, client.knowsVariant, accepted[|accepted| - 1]);
    match served {
      case None =>
        rc := BadArgs;
      case Some(response) =>
        var digest := ClientDigest(sha.alg, response.hash);
        WriteDigest(out, digest);
        sha.digest, sha.loLen, sha.hiLen, sha.buffLen := sha.alg.iv, 0, 0, 0;
    }
  }

  /** Poll for the response of the final request in flight. */
  method AwaitFinal<S(!new)>(sha: Context<S>, client: Client<S>, out: array<byte>) returns (rc: Rc)
    requires sha.Valid() && client.Valid() && out != sha.buffer && out.Length >= DigestSize(sha.alg.variant)
    requires sha.buffLen < sha.alg.B() && client.comm.link.pending && client.comm.link.accepted != []
    requires client.comm.link.accepted[|client.comm.link.accepted| - 1]
          == Request(true, sha.digest, Len(sha.loLen, sha.hiLen), sha.buffer[..sha.buffLen], [])
    modifies sha`digest, sha`loLen, sha`hiLen, sha`buffLen, client.comm, out
    ensures sha.Valid() && client.Valid() && client.comm.link.accepted == old(client.comm.link.accepted)
    ensures rc != Ok ==> sha.Value() == old(sha.Value()) && out[..] == old(out[..])
    ensures rc == Ok ==> sha.Value() == Init(sha.alg) && out[..DigestSize(sha.alg.variant)] == Finish(sha.alg, old(sha.Value()))
    ensures out[DigestSize(sha.alg.variant)..] == old(out[DigestSize(sha.alg.variant)..])
    ensures old(WillAnswer(sha.alg, client.knowsVariant, client.comm.link)) ==> rc == Ok && Calm(client.comm.link)
  {
    ghost var c, link := sha.Value(), client.comm.link;
    ServedFinal(sha.alg, client.knowsVariant, c);
    rc := NotReady;
    while rc == NotReady
      invariant sha.Valid() && client.Valid() && client.comm.link.accepted == link.accepted
      invariant rc == NotReady ==> client.comm.link.pending
      invariant rc != Ok ==> sha.Value() == c && out[..] == old(out[..])
      invariant rc == Ok ==> sha.Value() == Init(sha.alg) && out[..DigestSize(sha.alg.variant)] == Finish(sha.alg, c)
      invariant out[DigestSize(sha.alg.variant)..] == old(out[DigestSize(sha.alg.variant)..])
      invariant WillAnswer(sha.alg, client.knowsVariant, link) ==>
        if rc == NotReady then client.comm.link == link else rc == Ok && Calm(client.comm.link)
      decreases |client.comm.link.recvs|, rc == NotReady
    {
      rc := FinalResponse(sha, client, out);
    }
  }

  /** The final half of a blocking call. */
  method Finalize<S(!new)>(sha: Context<S>, client: Client<S>, out: array<byte>) returns (rc: Rc)
    requires sha.Valid() && client.Valid() && out != sha.buffer && out.Length >= DigestSize(sha.alg.variant)
    modifies sha`digest, sha`loLen, sha`hiLen, sha`buffLen, client.comm, out
    ensures sha.Valid() && client.Valid()
    ensures old(sha.buffLen) >= sha.alg.B() ==> rc == BadArgs
    ensures rc != Ok ==> sha.Value() == old(sha.Value()) && out[..] == old(out[..])
    ensures rc == Ok ==> old(sha.buffLen) < sha.alg.B() && sha.Value() == Init(sha.alg)
    ensures rc == Ok ==> old(|sha.Value().pending|) < sha.alg.B() && out[..DigestSize(sha.alg.variant)] == Finish(sha.alg, old(sha.Value()))
    ensures out[DigestSize(sha.alg.variant)..] == old(out[DigestSize(sha.alg.variant)..])
    ensures rc == Ok ==> client.comm.Count() == old(client.comm.Count()) + 1
    ensures old(client.comm.link.pending) ==> rc != Ok && client.comm.link == old(client.comm.link)
    ensures old(Calm(client.comm.link) && sha.buffLen < sha.alg.B()) ==> rc == Ok && Calm(client.comm.link)
  {
    rc := FinalRequest(sha, client);
    if rc != Ok {
      return;
    }
    ServedFinal(sha.alg, client.knowsVariant, sha.Value());
    rc := AwaitFinal(sha, client, out);
  }

  /** wh_Client_Sha256 and its copies, _Sha3Oneshot: absorb the input, then finish when there is an output. */
  method Blocking<S(!new)>(sha: Context<S>, client: Client<S>, input: seq<byte>, out: array?<byte>) returns (rc: Rc)
    requires sha.Valid() && client.Valid() && |input| < TWO32
    requires out != null ==> out != sha.buffer && out.Length >= DigestSize(sha.alg.variant)
    modifies sha, sha.buffer, client.comm, out
    ensures sha.Valid() && client.Valid()
    ensures rc != Ok ==> sha.Value() == old(sha.Value()) && (out != null ==> out[..] == old(out[..]))
    ensures old(sha.buffLen) >= sha.alg.B() ==>
      rc == (if input == [] && out == null then Ok else BadArgs) && sha.Value() == old(sha.Value())
    ensures rc == Ok && old(sha.buffLen) < sha.alg.B() ==>
      var now := Absorb(sha.alg, old(sha.Value()), input);
      && (out == null ==> sha.Value() == now)
      && (out != null ==> sha.Value() == Init(sha.alg) && out[..DigestSize(sha.alg.variant)] == Finish(sha.alg, now))
      && client.comm.Count() == old(client.comm.Count()) + Rounds(sha.alg, old(sha.buffLen), |input|) + if out == null then 0 else 1
    ensures old(client.comm.link.pending) ==> client.comm.link == old(client.comm.link)
    ensures old(Calm(client.comm.link) && sha.buffLen < sha.alg.B()) ==> rc == Ok && Calm(client.comm.link)
  {
    ghost var before := sha.Value();
    ghost var was := if out == null then [] else out[..];
    var saved := Save(sha);
    rc := UpdateAll(sha, client, input);
    assert out != null ==> out[..] == was;
    if rc == Ok && out != null {
      rc := Finalize(sha, client, out);
      assert rc != Ok ==> out[..] == was;
    }
    if rc != Ok {
      Restore(sha, saved, before);
      assert out != null ==> out[..] == was;
    }
  }
}
