/**
 Whole histories of one hash context: any number of blocking calls, inline or DMA, of any
 lengths, some of them failing, and the digest taken at the end.
 */
module HashHistory {
  import opened Codes
  import opened Blocks
  import opened HashSpec
  import opened HashStandard
  import opened HashServer
  import opened HashClient
  import opened HashCalls
  import opened HashDma
  import opened Comm
  import opened Dma

  // ------------------------------------------------------------------ the two paths

  /** The context after a request with these blocks is served; without blocks nothing is sent. */
  function Served<S>(alg: Alg<S>, known: bool, c: Ctx<S>, data: seq<byte>, inlined: seq<byte>, dma: seq<byte>): (c': Ctx<S>)
    requires ValidLen(c.len)
    ensures ValidLen(c'.len)
  {
    if inlined + dma == [] then Ctx(c.digest, c.len, c.pending + data)
    else
      match Serve(alg, known, Request(false, c.digest, c.len, inlined, dma))
      case None => c
      case Some(out) =>
        Ctx(out.digest, if FamilyOf(alg.variant) == Sponge then c.len else WireLen(FamilyOf(alg.variant), out.len),
            WaitingBytes(alg, c.pending + data))
  }

  /** The inline path: chunk after chunk, each as much as one message and the partial block can take. */
  function InlinePath<S>(alg: Alg<S>, known: bool, c: Ctx<S>, data: seq<byte>): Ctx<S>
    requires ValidLen(c.len) && alg.M() > 0
    decreases |data|
  {
    if data == [] || |c.pending| >= alg.B() then c
    else
      var chunk := Min(|data|, alg.M() + (alg.B() - 1 - |c.pending|));
      var next := Served(alg, known, c, data[..chunk], WireBytes(alg, c.pending + data[..chunk]), []);
      InlinePath(alg, known, next, data[chunk..])
  }

  /** The DMA path: one request, with at most one block inline and every other block mapped. */
  function MappedPath<S>(alg: Alg<S>, known: bool, c: Ctx<S>, data: seq<byte>): Ctx<S>
    requires ValidLen(c.len)
  {
    if |c.pending| >= alg.B() then c
    else Served(alg, known, c, data, InlinePart(alg, c.pending, data), DmaPart(alg, c.pending, data))
  }

  lemma ServedAbsorbs<S>(alg: Alg<S>, known: bool, c: Ctx<S>, data: seq<byte>, inlined: seq<byte>, dma: seq<byte>)
    requires ValidLen(c.len) && Fits32(|inlined|) && Fits32(|dma|)
    requires |inlined| % alg.B() == 0 && |dma| % alg.B() == 0
    requires inlined + dma == WireBytes(alg, c.pending + data)
    ensures Served(alg, known, c, data, inlined, dma) == Absorb(alg, c, data)
  {
    if inlined + dma == [] {
      BufferedIsAbsorb(alg, c, data);
    } else {
      var c' := Served(alg, known, c, data, inlined, dma);
      ServedUpdate(alg, known, Request(false, c.digest, c.len, inlined, dma));
      AnsweredIsAbsorb(alg, known, c, data, inlined, dma, c'.digest, c'.len);
    }
  }

  /** One message takes a chunk and the partial block before it. */
  lemma ChunkAbsorbs<S>(alg: Alg<S>, known: bool, c: Ctx<S>, data: seq<byte>)
    requires ValidLen(c.len) && alg.commLen < 0x1_0000
    requires |c.pending| + |data| < 0x2_0000
    ensures Served(alg, known, c, data, WireBytes(alg, c.pending + data), []) == Absorb(alg, c, data)
  {
    var wire := WireBytes(alg, c.pending + data);
    WholeIsAligned(|c.pending| + |data|, alg.B());
    SmallIsItsRemainder(0, alg.B());
    assert wire + [] == wire;
    ServedAbsorbs(alg, known, c, data, wire, []);
  }

  /** The inline path absorbs the data, however many messages it takes. */
  lemma {:induction false} InlinePathAbsorbs<S>(alg: Alg<S>, known: bool, c: Ctx<S>, data: seq<byte>)
    requires ValidLen(c.len) && alg.M() > 0 && alg.commLen < 0x1_0000 && |c.pending| < alg.B()
    ensures InlinePath(alg, known, c, data) == Absorb(alg, c, data)
    decreases |data|
  {
    if data == [] {
      AbsorbNothing(alg, c);
    } else {
      var chunk := Min(|data|, alg.M() + (alg.B() - 1 - |c.pending|));
      assert 0 < chunk <= |data|;
      var next := Absorb(alg, c, data[..chunk]);
      assert InlinePath(alg, known, c, data) == InlinePath(alg, known, next, data[chunk..]) by {
        ChunkAbsorbs(alg, known, c, data[..chunk]);
      }
      InlinePathAbsorbs(alg, known, next, data[chunk..]);
      AbsorbInTwo(alg, c, data, chunk);
    }
  }

  /** So does the DMA path, in one. */
  lemma MappedPathAbsorbs<S>(alg: Alg<S>, known: bool, c: Ctx<S>, data: seq<byte>)
    requires ValidLen(c.len) && |c.pending| < alg.B() && |data| < TWO32
    ensures MappedPath(alg, known, c, data) == Absorb(alg, c, data)
  {
    PartsAreWire(alg, c.pending, data);
    ServedAbsorbs(alg, known, c, data, InlinePart(alg, c.pending, data), DmaPart(alg, c.pending, data));
  }

  // ------------------------------------------------------------------- histories

  /** One blocking update call: its input, its path, and whether it succeeded. */
  datatype Call = Call(data: seq<byte>, mapped: bool, ok: bool)

  /** A call that succeeds takes its path; one that fails leaves the context as it was. */
  ghost predicate CallStep<S(!new)>(alg: Alg<S>, known: bool, call: Call, c: Ctx<S>, c': Ctx<S>)
    requires Sound(alg)
  {
    && ValidLen(c.len) && |call.data| < TWO32
    && c' == if !call.ok then c
             else if call.mapped then MappedPath(alg, known, c, call.data)
             else InlinePath(alg, known, c, call.data)
  }

  ghost predicate IsRun<S(!new)>(alg: Alg<S>, known: bool, calls: seq<Call>, states: seq<Ctx<S>>)
    requires Sound(alg)
  {
    && |states| == |calls| + 1
    && ValidLen(states[0].len) && |states[0].pending| < alg.B()
    && forall i :: 0 <= i < |calls| ==> CallStep(alg, known, calls[i], states[i], states[i + 1])
  }

  /** The bytes the successful calls were given, in order. */
  function Fed(calls: seq<Call>): seq<byte> {
    if calls == [] then []
    else Fed(calls[..|calls| - 1]) + if calls[|calls| - 1].ok then calls[|calls| - 1].data else []
  }

  /** Whichever path each call takes, and whatever fails between, a run absorbs what it was fed. */
  lemma {:induction false} RunAbsorbs<S(!new)>(alg: Alg<S>, known: bool, calls: seq<Call>, states: seq<Ctx<S>>)
    requires Sound(alg) && alg.commLen < 0x1_0000 && IsRun(alg, known, calls, states)
    ensures states[|calls|] == Absorb(alg, states[0], Fed(calls))
    decreases |calls|
  {
    if calls == [] {
      AbsorbNothing(alg, states[0]);
    } else {
      var n := |calls| - 1;
      RunAbsorbs(alg, known, calls[..n], states[..n + 1]);
      assert CallStep(alg, known, calls[n], states[n], states[n + 1]);
      if calls[n].ok {
        MappedPathAbsorbs(alg, known, states[n], calls[n].data);
        InlinePathAbsorbs(alg, known, states[n], calls[n].data);
        AbsorbAppend(alg, states[0], Fed(calls[..n]), calls[n].data);
      } else {
        assert Fed(calls[..n]) + [] == Fed(calls[..n]);
      }
    }
  }

  /** Two histories that fed the same bytes leave the same context: cuts and paths do not matter. */
  lemma PathsAgree<S(!new)>(alg: Alg<S>, known: bool, calls: seq<Call>, states: seq<Ctx<S>>, calls': seq<Call>, states': seq<Ctx<S>>)
    requires Sound(alg) && alg.commLen < 0x1_0000
    requires IsRun(alg, known, calls, states) && IsRun(alg, known, calls', states')
    requires states[0] == states'[0] && Fed(calls) == Fed(calls')
    ensures states[|calls|] == states'[|calls'|]
  {
    RunAbsorbs(alg, known, calls, states);
    RunAbsorbs(alg, known, calls', states');
  }

  /** Finishing a history that began with an empty context yields the hash of everything fed to it. */
  lemma StreamingRefinement<S(!new)>(alg: Alg<S>, m: seq<byte>)
    requires InStandard(alg.variant, |m|)
    ensures Finish(alg, Absorb(alg, Init(alg), m)) == DigestCounting(alg, m, StreamedCount(alg.variant, |m|))
    ensures CountersSuffice(alg.variant, |m|) ==> Finish(alg, Absorb(alg, Init(alg), m)) == Hash(alg, m)
  {
    FinishOfAbsorb(alg, m);
    StreamedPadding(alg.variant, |m|);
  }

  // ---------------------------------------------------------- a caller of the code

  /** A piece of a message, where it lies in client memory, and the path it is to take. */
  datatype Job = Job(data: seq<byte>, addr: nat, mapped: bool)

  function CallsOf(jobs: seq<Job>, oks: seq<bool>): (calls: seq<Call>)
    requires |oks| <= |jobs|
    ensures |calls| == |oks|
    ensures forall i :: 0 <= i < |oks| ==> calls[i] == Call(jobs[i].data, jobs[i].mapped, oks[i])
  {
    seq(|oks|, i requires 0 <= i < |oks| => Call(jobs[i].data, jobs[i].mapped, oks[i]))
  }

  /** Everything the pieces hold. */
  function AllOf(jobs: seq<Job>): seq<byte> {
    if jobs == [] then [] else AllOf(jobs[..|jobs| - 1]) + jobs[|jobs| - 1].data
  }

  /** When every call succeeds, nothing is missing from what was fed. */
  lemma {:induction false} AllFed(jobs: seq<Job>, oks: seq<bool>)
    requires |oks| == |jobs| && forall i :: 0 <= i < |oks| ==> oks[i]
    ensures Fed(CallsOf(jobs, oks)) == AllOf(jobs)
    decreases |jobs|
  {
    if jobs != [] {
      var n := |jobs| - 1;
      AllFed(jobs[..n], oks[..n]);
      assert CallsOf(jobs, oks)[..n] == CallsOf(jobs[..n], oks[..n]);
    }
  }

  lemma RunGrows<S(!new)>(alg: Alg<S>, known: bool, calls: seq<Call>, states: seq<Ctx<S>>, call: Call, c': Ctx<S>)
    requires Sound(alg) && IsRun(alg, known, calls, states) && CallStep(alg, known, call, states[|calls|], c')
    ensures IsRun(alg, known, calls + [call], states + [c'])
  {
    var calls', states' := calls + [call], states + [c'];
    forall i | 0 <= i < |calls'|
      ensures CallStep(alg, known, calls'[i], states'[i], states'[i + 1])
    {
      if i < |calls| {
        assert CallStep(alg, known, calls[i], states[i], states[i + 1]);
      }
    }
  }

  lemma JobDone<S(!new)>(alg: Alg<S>, known: bool, jobs: seq<Job>, oks: seq<bool>, states: seq<Ctx<S>>, ok: bool, c': Ctx<S>)
    requires Sound(alg) && |oks| < |jobs| && IsRun(alg, known, CallsOf(jobs, oks), states)
    requires CallStep(alg, known, Call(jobs[|oks|].data, jobs[|oks|].mapped, ok), states[|oks|], c')
    ensures IsRun(alg, known, CallsOf(jobs, oks + [ok]), states + [c'])
  {
    var call := Call(jobs[|oks|].data, jobs[|oks|].mapped, ok);
    RunGrows(alg, known, CallsOf(jobs, oks), states, call, c');
    assert CallsOf(jobs, oks + [ok]) == CallsOf(jobs, oks) + [call];
  }

  /** One piece, by its path. */
  method Feed<S(!new)>(sha: Context<S>, client: Client<S>, job: Job) returns (ok: bool)
    requires sha.Valid() && client.Valid() && Tidy(client) && sha.buffLen < sha.alg.B() && |job.data| < TWO32
    modifies sha, sha.buffer, client`shaSlot, client.comm, client.dma
    ensures sha.Valid() && client.Valid() && Tidy(client) && sha.buffLen < sha.alg.B()
    ensures CallStep(sha.alg, client.knowsVariant, Call(job.data, job.mapped, ok), old(sha.Value()), sha.Value())
    ensures old(FaultFree(client)) ==> ok && FaultFree(client)
  {
    ghost var c := sha.Value();
    var rc;
    if job.mapped {
      rc := DmaBlocking(sha, client, job.data, job.addr, null);
      AbsorbNothing(sha.alg, c);
      MappedPathAbsorbs(sha.alg, client.knowsVariant, c, job.data);
    } else {
      rc := Blocking(sha, client, job.data, null);
      InlinePathAbsorbs(sha.alg, client.knowsVariant, c, job.data);
    }
    ok := rc == Ok;
  }

  /** A whole message in pieces, each by the path chosen for it: a real run of the context. */
  method FeedAll<S(!new)>(sha: Context<S>, client: Client<S>, jobs: seq<Job>) returns (oks: seq<bool>, ghost states: seq<Ctx<S>>)
    requires sha.Valid() && client.Valid() && Tidy(client) && sha.buffLen < sha.alg.B()
    requires forall i :: 0 <= i < |jobs| ==> |jobs[i].data| < TWO32
    modifies sha, sha.buffer, client`shaSlot, client.comm, client.dma
    ensures sha.Valid() && client.Valid() && Tidy(client) && sha.buffLen < sha.alg.B()
    ensures |oks| == |jobs| && IsRun(sha.alg, client.knowsVariant, CallsOf(jobs, oks), states)
    ensures states[0] == old(sha.Value()) && states[|jobs|] == sha.Value()
    ensures sha.Value() == Absorb(sha.alg, old(sha.Value()), Fed(CallsOf(jobs, oks)))
    ensures old(FaultFree(client)) ==> FaultFree(client) && forall i :: 0 <= i < |oks| ==> oks[i]
  {
    oks, states := [], [sha.Value()];
    for i := 0 to |jobs|
      invariant sha.Valid() && client.Valid() && Tidy(client) && sha.buffLen < sha.alg.B()
      invariant |oks| == i && IsRun(sha.alg, client.knowsVariant, CallsOf(jobs, oks), states)
      invariant states[0] == old(sha.Value()) && states[i] == sha.Value()
      invariant old(FaultFree(client)) ==> FaultFree(client) && forall k :: 0 <= k < i ==> oks[k]
    {
      var ok := Feed(sha, client, jobs[i]);
      JobDone(sha.alg, client.knowsVariant, jobs, oks, states, ok, sha.Value());
      oks, states := oks + [ok], states + [sha.Value()];
    }
    RunAbsorbs(sha.alg, client.knowsVariant, CallsOf(jobs, oks), states);
  }

  /**
   Streaming refinement, end to end: feed pieces by any mix of paths, with any failures, then
   finish by either path. The bytes written are the hash of the bytes that went in; without a
   failure that is the hash of all of them.
   */
  method HashPieces<S(!new)>(sha: Context<S>, client: Client<S>, jobs: seq<Job>, mappedEnd: bool, out: array<byte>)
    returns (rc: Rc, oks: seq<bool>)
    requires sha.Valid() && client.Valid() && Tidy(client) && sha.buffLen < sha.alg.B()
    requires forall i :: 0 <= i < |jobs| ==> |jobs[i].data| < TWO32
    requires out != sha.buffer && out.Length >= DigestSize(sha.alg.variant)
    modifies sha, sha.buffer, client`shaSlot, client.comm, client.dma, out
    ensures sha.Valid() && client.Valid() && Tidy(client) && |oks| == |jobs|
    ensures rc != Ok ==> sha.Value() == Absorb(sha.alg, old(sha.Value()), Fed(CallsOf(jobs, oks))) && out[..] == old(out[..])
    ensures rc == Ok ==> sha.Value() == Init(sha.alg)
    ensures rc == Ok ==>
      out[..DigestSize(sha.alg.variant)] == Finish(sha.alg, Absorb(sha.alg, old(sha.Value()), Fed(CallsOf(jobs, oks))))
    ensures var m := Fed(CallsOf(jobs, oks));
      rc == Ok && old(sha.Value()) == Init(sha.alg) && InStandard(sha.alg.variant, |m|) && CountersSuffice(sha.alg.variant, |m|) ==>
        out[..DigestSize(sha.alg.variant)] == Hash(sha.alg, m)
    ensures old(FaultFree(client)) ==> rc == Ok && FaultFree(client) && Fed(CallsOf(jobs, oks)) == AllOf(jobs)
    ensures old(FaultFree(client) && sha.Value() == Init(sha.alg))
            && InStandard(sha.alg.variant, |AllOf(jobs)|) && CountersSuffice(sha.alg.variant, |AllOf(jobs)|) ==>
        rc == Ok && out[..DigestSize(sha.alg.variant)] == Hash(sha.alg, AllOf(jobs))
    ensures old(FaultFree(client) && sha.Value() == Init(sha.alg)) && CountersSuffice(sha.alg.variant, |AllOf(jobs)|) ==>
      forall x | IsPadded(sha.alg.variant, AllOf(jobs), x) ::
        out[..DigestSize(sha.alg.variant)] == sha.alg.encode(Chain(sha.alg, x))[..DigestSize(sha.alg.variant)]
  {
    ghost var c, was := sha.Value(), out[..];
    ghost var states;
    oks, states := FeedAll(sha, client, jobs);
    assert out[..] == was;
    if FaultFree(client) && forall i :: 0 <= i < |oks| ==> oks[i] {
      AllFed(jobs, oks);
    }
    ghost var m := Fed(CallsOf(jobs, oks));
    ghost var fed := sha.Value();
    if mappedEnd {
      rc := DmaBlocking(sha, client, [], 0, out);
    } else {
      rc := Blocking(sha, client, [], out);
    }
    AbsorbNothing(sha.alg, fed);
    if InStandard(sha.alg.variant, |m|) {
      StreamingRefinement(sha.alg, m);
    }
    HashIsAnyStandard(sha.alg, AllOf(jobs));
  }

  /** The hash by the standard's own description, whichever padded form is taken. */
  lemma HashIsAnyStandard<S(!new)>(alg: Alg<S>, m: seq<byte>)
    requires Sound(alg)
    ensures forall x | IsPadded(alg.variant, m, x) ::
      InStandard(alg.variant, |m|) && Hash(alg, m) == alg.encode(Chain(alg, x))[..DigestSize(alg.variant)]
  {
    forall x | IsPadded(alg.variant, m, x)
      ensures InStandard(alg.variant, |m|) && Hash(alg, m) == alg.encode(Chain(alg, x))[..DigestSize(alg.variant)]
    {
      PaddingIsStandard(alg.variant, m, x);
      HashIsStandard(alg, m, x);
    }
  }

  /** From scratch and without a failure: the pieces, by whichever paths, come to the hash of the whole. */
  method HashWhole<S(!new)>(alg: Alg<S>, known: bool, jobs: seq<Job>, mappedEnd: bool) returns (digest: seq<byte>)
    requires Sound(alg) && alg.commLen < 0x1_0000
    requires forall i :: 0 <= i < |jobs| ==> |jobs[i].data| < TWO32
    requires InStandard(alg.variant, |AllOf(jobs)|) && CountersSuffice(alg.variant, |AllOf(jobs)|)
    ensures digest == Hash(alg, AllOf(jobs))
    ensures forall x | IsPadded(alg.variant, AllOf(jobs), x) ::
      digest == alg.encode(Chain(alg, x))[..DigestSize(alg.variant)]
  {
    var sha := new Context(alg);
    var comm := new CommClient<Request<S>>([], []);
    var dma := new DmaPort([], []);
    var client := new Client(comm, dma, known);
    var out := new byte[DigestSize(alg.variant)](_ => 0);
    var rc, oks := HashPieces(sha, client, jobs, mappedEnd, out);
    digest := out[..DigestSize(alg.variant)];
  }

  /** The padded message the server hashes, and the one the standard pads. */
  function StreamedInput(v: Variant, m: seq<byte>): seq<byte> {
    m + Padding(v, |m| % BlockSize(v), StreamedCount(v, |m|))
  }

  function StandardInput(v: Variant, m: seq<byte>): seq<byte> {
    m + Padding(v, |m| % BlockSize(v), |m|)
  }

  lemma SameTail(v: Variant, m: seq<byte>)
    ensures StreamedInput(v, m) == StandardInput(v, m)
       <==> Padding(v, |m| % BlockSize(v), StreamedCount(v, |m|)) == Padding(v, |m| % BlockSize(v), |m|)
  {
    if StreamedInput(v, m) == StandardInput(v, m) {
      assert StreamedInput(v, m)[|m|..] == StandardInput(v, m)[|m|..];
    }
  }

  /** The hash tells these two padded messages apart. */
  ghost predicate NoCollision<S(!new)>(alg: Alg<S>, x: seq<byte>, y: seq<byte>) {
    Truncate(alg, Fold(alg, alg.iv, x)) == Truncate(alg, Fold(alg, alg.iv, y)) ==> x == y
  }

  /**
   Exactly when the streamed digest is the hash of the standard, short of a collision: the
   length counters on the wire must reach. They carry 32 bits each, which is all of a SHA-224
   or SHA-256 counter but half of the low word of a SHA-384 or SHA-512 counter.
   */
  lemma RefinementIsExact<S(!new)>(alg: Alg<S>, m: seq<byte>)
    requires InStandard(alg.variant, |m|)
    requires NoCollision(alg, StreamedInput(alg.variant, m), StandardInput(alg.variant, m))
    ensures Finish(alg, Absorb(alg, Init(alg), m)) == Hash(alg, m) <==> CountersSuffice(alg.variant, |m|)
  {
    var v := alg.variant;
    FinishOfAbsorb(alg, m);
    StreamedPadding(v, |m|);
    SameTail(v, m);
  }

  /** A SHA-512 message of exactly 4 GiB is padded with the length zero. */
  lemma FourGigabytesCountAsNone(m: seq<byte>)
    requires |m| == TWO32
    ensures StreamedCount(Sha512, |m|) == 0 && !CountersSuffice(Sha512, |m|)
    ensures StreamedInput(Sha512, m) != StandardInput(Sha512, m)
  {
    DivModUnique(TWO32, 128, 0x200_0000, 0);
    DivModUnique(TWO32, TWO32, 1, 0);
    CountOfFresh(Wide, TWO32);
    StreamedPadding(Sha512, |m|);
    SameTail(Sha512, m);
  }
}
