/**
 The stateless server side of a hash request (the _HandleSha2xx, _HandleSha3 and DMA
 handlers of src/wh_server_crypto.c): state in, whole blocks or the final tail folded,
 state or digest out.
 */
module HashServer {
  import opened Codes
  import opened Blocks
  import opened HashSpec

  datatype Request<S> = Request(last: bool, digest: S, len: Len, inlined: seq<byte>, dma: seq<byte>)

  datatype Response<S> = Response(digest: S, len: Len, hash: seq<byte>)

  /** wolfCrypt's byte counters, two words of 32 or 64 bits. */
  function WordModulus(f: Family): nat {
    if f == Narrow then TWO32 else TWO64
  }

  /** Count the bytes of one update call. */
  function AddLength(f: Family, len: Len, n: nat): Len {
    var l := WordModulus(f);
    Len((len.lo + n) % l, if len.lo + n >= l then (len.hi + 1) % l else len.hi)
  }

  /** The counters of a response: 32 bits of each word; a sponge has none. */
  function WireLen(f: Family, len: Len): Len {
    if f == Sponge then NO_LEN else Len(len.lo % TWO32, len.hi % TWO32)
  }

  predicate Wellformed<S>(alg: Alg<S>, r: Request<S>) {
    if r.last then |r.inlined| < alg.B() && r.dma == []
    else |r.inlined| % alg.B() == 0 && |r.dma| % alg.B() == 0
  }

  /** A server without SHA-512/t runs plain SHA-512 and writes the full digest. */
  function HashField<S>(alg: Alg<S>, knowsVariant: bool, s: S): seq<byte> {
    var full := alg.encode(s);
    var n := if alg.variant in {Sha512t224, Sha512t256} && !knowsVariant then MAX_DIGEST else DigestSize(alg.variant);
    var digest := if n <= |full| then full[..n] else full;
    if |digest| < MAX_DIGEST then digest + Zeros(MAX_DIGEST - |digest|) else digest
  }

  /** None: the request is rejected as malformed. */
  function Serve<S>(alg: Alg<S>, knowsVariant: bool, r: Request<S>): Option<Response<S>> {
    if !Wellformed(alg, r) then None
    else
      var f := FamilyOf(alg.variant);
      var counted := AddLength(f, AddLength(f, r.len, |r.inlined|), |r.dma|);
      if r.last then
        var p := Padding(alg.variant, |r.inlined|, if f == Sponge then 0 else counted.hi * WordModulus(f) + counted.lo);
        Some(Response(r.digest, NO_LEN, HashField(alg, knowsVariant, Fold(alg, r.digest, r.inlined + p))))
      else
        Some(Response(Fold(alg, Fold(alg, r.digest, r.inlined), r.dma), WireLen(f, counted), []))
  }

  /** A transfer size is a 32-bit number. */
  predicate Fits32(n: nat) {
    n < TWO32
  }

  lemma AddLengthNarrow(len: Len, n: nat)
    requires ValidLen(len) && Fits32(n)
    ensures AddLength(Narrow, len, n) == Advance(Narrow, len, n)
  {
    var t := len.hi * TWO32 + len.lo + n;
    if len.lo + n < TWO32 {
      SmallIsItsRemainder(len.lo + n, TWO32);
      SmallIsItsRemainder(t, TWO64);
      DivModUnique(t, TWO32, len.hi, len.lo + n);
    } else {
      var lo, hi := len.lo + n - TWO32, len.hi + 1;
      DivModUnique(len.lo + n, TWO32, 1, lo);
      if hi < TWO32 {
        SmallIsItsRemainder(hi, TWO32);
        SmallIsItsRemainder(t, TWO64);
        DivModUnique(t, TWO32, hi, lo);
      } else {
        assert t == TWO64 + lo;
        DivModUnique(t, TWO64, 1, lo);
        DivModUnique(lo, TWO32, 0, lo);
      }
    }
  }

  lemma AddLengthWide(len: Len, a: nat, b: nat)
    requires ValidLen(len) && Fits32(a) && Fits32(b)
    ensures AddLength(Wide, AddLength(Wide, len, a), b) == Len(len.lo + a + b, len.hi)
  {
    SmallIsItsRemainder(len.lo + a, TWO64);
    SmallIsItsRemainder(len.lo + a + b, TWO64);
  }

  /** The counters after a served update are those of the streaming context. */
  lemma ServedLength(f: Family, len: Len, a: nat, b: nat)
    requires ValidLen(len) && Fits32(a) && Fits32(b)
    ensures f != Sponge ==> WireLen(f, AddLength(f, AddLength(f, len, a), b)) == Advance(f, len, a + b)
  {
    match f {
      case Narrow =>
        AddLengthNarrow(len, a);
        AddLengthNarrow(Advance(Narrow, len, a), b);
        AdvanceTwice(Narrow, len, a, b);
        var l := Advance(Narrow, len, a + b);
        SmallIsItsRemainder(l.lo, TWO32);
        SmallIsItsRemainder(l.hi, TWO32);
      case Wide =>
        AddLengthWide(len, a, b);
        SmallIsItsRemainder(len.hi, TWO32);
      case Sponge =>
    }
  }

  /** Served whole blocks leave the state that streaming them leaves. */
  lemma ServedUpdate<S>(alg: Alg<S>, known: bool, r: Request<S>)
    requires !r.last && Wellformed(alg, r) && ValidLen(r.len) && Fits32(|r.inlined|) && Fits32(|r.dma|)
    ensures var out := Serve(alg, known, r);
      && out.Some?
      && out.value.digest == Fold(alg, r.digest, r.inlined + r.dma)
      && (FamilyOf(alg.variant) != Sponge ==>
            out.value.len == Advance(FamilyOf(alg.variant), r.len, |r.inlined| + |r.dma|))
  {
    FoldAppend(alg, r.digest, r.inlined, r.dma);
    ServedLength(FamilyOf(alg.variant), r.len, |r.inlined|, |r.dma|);
  }

  /** What the client copies out of the hash field: as many bytes as its own variant has. */
  function ClientDigest<S>(alg: Alg<S>, hash: seq<byte>): seq<byte> {
    if DigestSize(alg.variant) <= |hash| then hash[..DigestSize(alg.variant)] else hash
  }

  /** The client's truncation gives the variant's digest whether or not the server knows the variant. */
  lemma TruncationByClient<S(!new)>(alg: Alg<S>, known: bool, s: S)
    requires Sound(alg)
    ensures |HashField(alg, known, s)| == MAX_DIGEST
    ensures ClientDigest(alg, HashField(alg, known, s)) == Truncate(alg, s)
  {
    assert |alg.encode(s)| == StateSize(alg.variant);
  }

  /** A served final request yields the digest of the streaming context. */
  lemma ServedFinal<S(!new)>(alg: Alg<S>, known: bool, c: Ctx<S>)
    requires Sound(alg) && ValidLen(c.len) && |c.pending| < alg.B()
    ensures var out := Serve(alg, known, Request(true, c.digest, c.len, c.pending, []));
      && out.Some?
      && |out.value.hash| == MAX_DIGEST
      && ClientDigest(alg, out.value.hash) == Finish(alg, c)
  {
    ServedPadding(alg.variant, c.len, |c.pending|);
    var p := Padding(alg.variant, |c.pending|, CountOf(FamilyOf(alg.variant), c.len) + |c.pending|);
    TruncationByClient(alg, known, Fold(alg, c.digest, c.pending + p));
  }

  /** The count the server pads with. */
  function FinalCounted(f: Family, len: Len, n: nat): nat {
    var counted := AddLength(f, AddLength(f, len, n), 0);
    if f == Sponge then 0 else counted.hi * WordModulus(f) + counted.lo
  }

  lemma ServedPadding(v: Variant, len: Len, n: nat)
    requires ValidLen(len) && n < BlockSize(v)
    ensures Padding(v, n, FinalCounted(FamilyOf(v), len, n)) == Padding(v, n, CountOf(FamilyOf(v), len) + n)
  {
    if FamilyOf(v) != Sponge {
      FinalCount(FamilyOf(v), len, n);
    }
  }

  lemma FinalCount(f: Family, len: Len, n: nat)
    requires ValidLen(len) && n < 144 && f != Sponge
    ensures LengthField(f, FinalCounted(f, len, n)) == LengthField(f, CountOf(f, len) + n)
  {
    if f == Wide {
      AddLengthWide(len, n, 0);
    } else {
      AddLengthNarrow(len, n);
      AddLengthNarrow(Advance(Narrow, len, n), 0);
      AdvanceByNothing(Narrow, Advance(Narrow, len, n));
      var t := CountOf(Narrow, len) + n;
      NarrowSplit(t % TWO64);
      EightTimes(t, 0);
    }
  }
}
