/**
 What the streaming hashes compute. The compression function (or the Keccak permutation
 with its absorb step) stays uninterpreted; blocks, padding, length counters and
 truncation are spelled out (FIPS 180-4 sections 5 and 6, FIPS 202 sections 4 and 6).
 */
module HashSpec {
  import opened Codes
  import opened Blocks

  datatype Variant =
    | Sha224 | Sha256
    | Sha384 | Sha512 | Sha512t224 | Sha512t256
    | Sha3x224 | Sha3x256 | Sha3x384 | Sha3x512

  /** SHA-2 with 32-bit words, SHA-2 with 64-bit words, or a sponge. */
  datatype Family = Narrow | Wide | Sponge

  function FamilyOf(v: Variant): Family {
    match v
    case Sha224 | Sha256 => Narrow
    case Sha384 | Sha512 | Sha512t224 | Sha512t256 => Wide
    case Sha3x224 | Sha3x256 | Sha3x384 | Sha3x512 => Sponge
  }

  function BlockSize(v: Variant): (b: nat)
    ensures 64 <= b <= 144
  {
    match v
    case Sha224 | Sha256 => 64
    case Sha384 | Sha512 | Sha512t224 | Sha512t256 => 128
    case Sha3x224 => 144
    case Sha3x256 => 136
    case Sha3x384 => 104
    case Sha3x512 => 72
  }

  /** Bytes of chaining state carried through every update. */
  function StateSize(v: Variant): nat {
    match FamilyOf(v)
    case Narrow => 32
    case Wide => 64
    case Sponge => 200
  }

  function DigestSize(v: Variant): (d: nat)
    ensures d <= StateSize(v) && d <= MAX_DIGEST
  {
    match v
    case Sha224 | Sha512t224 | Sha3x224 => 28
    case Sha256 | Sha512t256 | Sha3x256 => 32
    case Sha384 | Sha3x384 => 48
    case Sha512 | Sha3x512 => 64
  }

  const MAX_DIGEST := 64

  /** Generic header and fixed request fields in front of inline data. */
  function RequestOverhead(v: Variant): nat {
    match FamilyOf(v)
    case Narrow => 60
    case Wide => 96
    case Sponge => 220
  }

  datatype Alg<!S> = Alg(
    variant: Variant,
    commLen: nat,
    iv: S,
    compress: (S, seq<byte>) -> S,
    encode: S -> seq<byte>)
  {
    function B(): (b: nat)
      ensures 64 <= b <= 144
    {
      BlockSize(variant)
    }

    /** Inline payload of one message: whole blocks only. */
    function M(): nat {
      if commLen < RequestOverhead(variant) then 0 else Whole(commLen - RequestOverhead(variant), B())
    }
  }

  /** The build's static asserts: one block fits inline; states serialize to their size. */
  ghost predicate Sound<S(!new)>(alg: Alg<S>) {
    alg.M() > 0 && forall s: S :: |alg.encode(s)| == StateSize(alg.variant)
  }

  /** Where one block fits inline, an algorithm of every variant meets this. */
  lemma SoundAlgExists(v: Variant, commLen: nat)
    requires commLen >= RequestOverhead(v) + BlockSize(v)
    ensures Sound(Alg(v, commLen, false, (s: bool, b: seq<byte>) => s, (s: bool) => Zeros(StateSize(v))))
  {
    var n, b := commLen - RequestOverhead(v), BlockSize(v);
    assert n % b < b <= n;
  }

  lemma CapacityIsAligned<S>(alg: Alg<S>)
    ensures alg.M() % alg.B() == 0
    ensures alg.M() > 0 ==> alg.M() >= alg.B()
  {
    if alg.commLen >= RequestOverhead(alg.variant) {
      WholeIsAligned(alg.commLen - RequestOverhead(alg.variant), alg.B());
      if alg.M() > 0 {
        AlignedMinusBlock(alg.M(), alg.B());
      }
    }
  }

  // -------------------------------------------------------------------- folding

  /** Feed whole blocks to the compression function; a partial block at the end is left out. */
  function Fold<S>(alg: Alg<S>, s: S, data: seq<byte>): S
    decreases |data|
  {
    if |data| < alg.B() then s else Fold(alg, alg.compress(s, data[..alg.B()]), data[alg.B()..])
  }

  lemma {:induction false} FoldAppend<S>(alg: Alg<S>, s: S, a: seq<byte>, b: seq<byte>)
    requires |a| % alg.B() == 0
    ensures Fold(alg, s, a + b) == Fold(alg, Fold(alg, s, a), b)
    decreases |a|
  {
    if |a| < alg.B() {
      SmallIsItsRemainder(|a|, alg.B());
      assert a + b == b;
    } else {
      AlignedMinusBlock(|a|, alg.B());
      assert (a + b)[..alg.B()] == a[..alg.B()];
      assert (a + b)[alg.B()..] == a[alg.B()..] + b;
      FoldAppend(alg, alg.compress(s, a[..alg.B()]), a[alg.B()..], b);
    }
  }

  // -------------------------------------------------------------------- padding

  function BigEndian(n: nat, width: nat): (bytes: seq<byte>)
    ensures |bytes| == width
  {
    if width == 0 then [] else BigEndian(n / 256, width - 1) + [(n % 256) as byte]
  }

  function Pow256(width: nat): (p: nat)
    ensures p > 0
  {
    if width == 0 then 1 else 256 * Pow256(width - 1)
  }

  function LengthBytes(f: Family): nat {
    match f
    case Narrow => 8
    case Wide => 16
    case Sponge => 0
  }

  /** The bit length field: the byte count times eight, in a fixed number of bytes. */
  function LengthField(f: Family, count: nat): (bytes: seq<byte>)
    ensures |bytes| == LengthBytes(f)
  {
    BigEndian(if f == Narrow then 8 * count % 0x1_0000_0000_0000_0000
              else 8 * count % 0x1_0000_0000_0000_0000_0000_0000_0000_0000, LengthBytes(f))
  }

  /** Zero bytes of SHA-2 padding: the fewest that complete a block. */
  function ZeroFill(b: nat, tail: nat, lengthBytes: nat): (z: nat)
    requires tail < b && lengthBytes < b
    ensures z < b
  {
    if tail + 1 + lengthBytes <= b then b - (tail + 1 + lengthBytes) else 2 * b - (tail + 1 + lengthBytes)
  }

  /** The bytes appended after a message whose last, partial block has `tail` bytes. */
  function Padding(v: Variant, tail: nat, count: nat): (p: seq<byte>)
    requires tail < BlockSize(v)
  {
    var b, f := BlockSize(v), FamilyOf(v);
    if f == Sponge then
      if tail == b - 1 then [0x86] else [0x06] + Zeros(b - tail - 2) + [0x80]
    else
      [0x80] + Zeros(ZeroFill(b, tail, LengthBytes(f))) + LengthField(f, count)
  }

  lemma PaddingCompletesBlock(v: Variant, tail: nat, count: nat)
    requires tail < BlockSize(v)
    ensures (tail + |Padding(v, tail, count)|) % BlockSize(v) == 0
    ensures BlockSize(v) <= tail + |Padding(v, tail, count)| <= 2 * BlockSize(v)
  {
    var b := BlockSize(v);
    var n := tail + |Padding(v, tail, count)|;
    assert n == b || n == 2 * b;
    DivModUnique(n, b, if n == b then 1 else 2, 0);
  }

  function Truncate<S>(alg: Alg<S>, s: S): seq<byte> {
    var full := alg.encode(s);
    if DigestSize(alg.variant) <= |full| then full[..DigestSize(alg.variant)] else full
  }

  /** The digest of a message whose length field carries `count`. */
  function DigestCounting<S>(alg: Alg<S>, m: seq<byte>, count: nat): seq<byte> {
    Truncate(alg, Fold(alg, alg.iv, m + Padding(alg.variant, |m| % alg.B(), count)))
  }

  /** The hash of the standard. */
  function Hash<S>(alg: Alg<S>, m: seq<byte>): seq<byte> {
    DigestCounting(alg, m, |m|)
  }

  // ------------------------------------------------------------ length counters

  const TWO32 := 0x1_0000_0000
  const TWO64 := 0x1_0000_0000_0000_0000

  /** loLen and hiLen as the wire carries them, 32 bits each. */
  datatype Len = Len(lo: nat, hi: nat)

  const NO_LEN := Len(0, 0)

  predicate ValidLen(len: Len) {
    len.lo < TWO32 && len.hi < TWO32
  }

  /** Counters after `n` more bytes: wolfCrypt counts, and each round trip keeps 32 bits of each word. */
  function Advance(f: Family, len: Len, n: nat): (len': Len)
    requires ValidLen(len)
    ensures ValidLen(len')
  {
    match f
    case Narrow =>
      var t := (len.hi * TWO32 + len.lo + n) % TWO64;
      Len(t % TWO32, t / TWO32)
    case Wide => Len((len.lo + n) % TWO32, len.hi)
    case Sponge => len
  }

  /** The byte count two counter words stand for. */
  function CountOf(f: Family, len: Len): nat {
    match f
    case Narrow => len.hi * TWO32 + len.lo
    case Wide => len.hi * TWO64 + len.lo
    case Sponge => 0
  }

  lemma NarrowSplit(t: nat)
    requires t < TWO64
    ensures t / TWO32 < TWO32 && (t / TWO32) * TWO32 + t % TWO32 == t
  {
  }

  lemma AdvanceTwice(f: Family, len: Len, a: nat, b: nat)
    requires ValidLen(len)
    ensures Advance(f, Advance(f, len, a), b) == Advance(f, len, a + b)
  {
    match f {
      case Narrow =>
        var x := len.hi * TWO32 + len.lo + a;
        NarrowSplit(x % TWO64);
        ModEarly(x, b, TWO64);
      case Wide => ModEarly(len.lo + a, b, TWO32);
      case Sponge =>
    }
  }

  lemma AdvanceByNothing(f: Family, len: Len)
    requires ValidLen(len)
    ensures Advance(f, len, 0) == len
  {
    if f == Narrow {
      var t := len.hi * TWO32 + len.lo;
      SmallIsItsRemainder(t, TWO64);
      DivModUnique(t, TWO32, len.hi, len.lo);
    } else if f == Wide {
      SmallIsItsRemainder(len.lo, TWO32);
    }
  }

  // ---------------------------------------------------------- streaming contexts

  /** A hash context: chaining state, counters, and the bytes not yet hashed. */
  datatype Ctx<S> = Ctx(digest: S, len: Len, pending: seq<byte>)

  function Init<S>(alg: Alg<S>): Ctx<S> {
    Ctx(alg.iv, NO_LEN, [])
  }

  /** Feed data to a context: all whole blocks are hashed, the rest waits. */
  function Absorb<S>(alg: Alg<S>, c: Ctx<S>, data: seq<byte>): (c': Ctx<S>)
    requires ValidLen(c.len)
    ensures ValidLen(c'.len) && |c'.pending| < alg.B()
  {
    var all := c.pending + data;
    var n := Whole(|all|, alg.B());
    Ctx(Fold(alg, c.digest, all[..n]), Advance(FamilyOf(alg.variant), c.len, n), all[n..])
  }

  /** The digest the context yields when it is finished now. */
  function Finish<S>(alg: Alg<S>, c: Ctx<S>): seq<byte>
    requires |c.pending| < alg.B()
  {
    var count := CountOf(FamilyOf(alg.variant), c.len) + |c.pending|;
    Truncate(alg, Fold(alg, c.digest, c.pending + Padding(alg.variant, |c.pending|, count)))
  }

  /** Feeding in two pieces is feeding their concatenation. */
  lemma AbsorbAppend<S>(alg: Alg<S>, c: Ctx<S>, a: seq<byte>, b: seq<byte>)
    requires ValidLen(c.len)
    ensures Absorb(alg, Absorb(alg, c, a), b) == Absorb(alg, c, a + b)
  {
    var first := c.pending + a;
    var k := Whole(|first|, alg.B());
    var second := first[k..] + b;
    var j := Whole(|second|, alg.B());
    var all := c.pending + (a + b);
    WholeIsAligned(|first|, alg.B());
    assert all == first[..k] + second;
    ModOfSum(k, |second|, alg.B());
    assert all[..k + j] == first[..k] + second[..j];
    FoldAppend(alg, c.digest, first[..k], second[..j]);
    AdvanceTwice(FamilyOf(alg.variant), c.len, k, j);
    assert all[k + j..] == second[j..];
  }

  lemma AbsorbNothing<S>(alg: Alg<S>, c: Ctx<S>)
    requires ValidLen(c.len) && |c.pending| < alg.B()
    ensures Absorb(alg, c, []) == c
  {
    assert c.pending + [] == c.pending;
    SmallIsItsRemainder(|c.pending|, alg.B());
    AdvanceByNothing(FamilyOf(alg.variant), c.len);
  }

  /** The count that reaches the length field after streaming n bytes. */
  function StreamedCount(v: Variant, n: nat): nat {
    var whole := Whole(n, BlockSize(v));
    CountOf(FamilyOf(v), Advance(FamilyOf(v), NO_LEN, whole)) + n % BlockSize(v)
  }

  lemma CountOfFresh(f: Family, n: nat)
    ensures CountOf(f, Advance(f, NO_LEN, n)) == match f case Narrow => n % TWO64 case Wide => n % TWO32 case Sponge => 0
  {
    if f == Narrow {
      NarrowSplit(n % TWO64);
    }
  }

  /** However a message was cut, finishing yields its digest, with the streamed count in the length field. */
  lemma FinishOfAbsorb<S>(alg: Alg<S>, m: seq<byte>)
    ensures Finish(alg, Absorb(alg, Init(alg), m)) == DigestCounting(alg, m, StreamedCount(alg.variant, |m|))
  {
    var k := Whole(|m|, alg.B());
    var p := Padding(alg.variant, |m| % alg.B(), StreamedCount(alg.variant, |m|));
    assert [] + m == m;
    FinishOfWhole(alg, m, k, p);
  }

  lemma FinishOfWhole<S>(alg: Alg<S>, m: seq<byte>, k: nat, p: seq<byte>)
    requires k == Whole(|m|, alg.B())
    ensures Fold(alg, Fold(alg, alg.iv, m[..k]), m[k..] + p) == Fold(alg, alg.iv, m + p)
  {
    WholeIsAligned(|m|, alg.B());
    assert m + p == m[..k] + (m[k..] + p);
    FoldAppend(alg, alg.iv, m[..k], m[k..] + p);
  }

  // --------------------------------------------------- when the length field is right

  lemma {:induction false} BigEndianInjective(a: nat, b: nat, width: nat)
    requires a < Pow256(width) && b < Pow256(width)
    requires BigEndian(a, width) == BigEndian(b, width)
    ensures a == b
  {
    if width > 0 {
      var pa, pb := BigEndian(a / 256, width - 1), BigEndian(b / 256, width - 1);
      assert BigEndian(a, width)[width - 1] == (a % 256) as byte;
      assert BigEndian(b, width)[width - 1] == (b % 256) as byte;
      assert pa == BigEndian(a, width)[..width - 1] && pb == BigEndian(b, width)[..width - 1];
      BigEndianInjective(a / 256, b / 256, width - 1);
    }
  }

  lemma Pow256Of16()
    ensures Pow256(16) == TWO64 * TWO64
  {
    assert Pow256(4) == TWO32;
    assert Pow256(8) == TWO64;
    assert Pow256(12) == TWO64 * TWO32;
  }

  /** The message lengths the standard defines: under 2^64 bits, or 2^128 bits, or any. */
  predicate InStandard(v: Variant, n: nat) {
    match FamilyOf(v)
    case Narrow => n < 0x2000_0000_0000_0000
    case Wide => n < 0x2000_0000_0000_0000_0000_0000_0000_0000
    case Sponge => true
  }

  /** Whether the counters on the wire are wide enough for a message of this length. */
  predicate CountersSuffice(v: Variant, n: nat) {
    FamilyOf(v) == Wide ==> Whole(n, BlockSize(v)) < TWO32
  }

  lemma NarrowCountIsRight(v: Variant, n: nat)
    requires FamilyOf(v) == Narrow
    ensures LengthField(Narrow, StreamedCount(v, n)) == LengthField(Narrow, n)
  {
    var whole := Whole(n, BlockSize(v));
    var r := n % BlockSize(v);
    CountOfFresh(Narrow, whole);
    EightTimes(whole, r);
  }

  lemma EightTimes(whole: nat, r: nat)
    ensures 8 * (whole % TWO64 + r) % TWO64 == 8 * (whole + r) % TWO64
  {
    var q, t := whole / TWO64, whole % TWO64;
    MultipleIsAligned(8 * q, TWO64);
    ModOfSum(8 * q * TWO64, 8 * (t + r), TWO64);
    assert 8 * (whole + r) == 8 * q * TWO64 + 8 * (t + r);
  }

  /** Two length fields of the wide family are equal only for equal counts. */
  lemma WideFieldIsExact(a: nat, b: nat)
    requires 8 * a < TWO64 * TWO64 && 8 * b < TWO64 * TWO64
    requires LengthField(Wide, a) == LengthField(Wide, b)
    ensures a == b
  {
    Pow256Of16();
    SmallIsItsRemainder(8 * a, TWO64 * TWO64);
    SmallIsItsRemainder(8 * b, TWO64 * TWO64);
    BigEndianInjective(8 * a, 8 * b, 16);
  }

  lemma WidePadding(v: Variant, n: nat)
    requires FamilyOf(v) == Wide && InStandard(v, n)
    ensures LengthField(Wide, StreamedCount(v, n)) == LengthField(Wide, n) <==> Whole(n, BlockSize(v)) < TWO32
  {
    var whole := Whole(n, BlockSize(v));
    CountOfFresh(Wide, whole);
    assert StreamedCount(v, n) == whole % TWO32 + n % BlockSize(v);
    if whole < TWO32 {
      SmallIsItsRemainder(whole, TWO32);
    } else if LengthField(Wide, StreamedCount(v, n)) == LengthField(Wide, n) {
      WideFieldIsExact(StreamedCount(v, n), n);
      assert false;
    }
  }

  /** The padding is that of the standard exactly when the counters suffice. */
  lemma StreamedPadding(v: Variant, n: nat)
    requires InStandard(v, n)
    ensures Padding(v, n % BlockSize(v), StreamedCount(v, n)) == Padding(v, n % BlockSize(v), n)
       <==> CountersSuffice(v, n)
  {
    var r, f := n % BlockSize(v), FamilyOf(v);
    if f != Sponge {
      var z := [0x80] + Zeros(ZeroFill(BlockSize(v), r, LengthBytes(f)));
      var x, y := LengthField(f, StreamedCount(v, n)), LengthField(f, n);
      assert (z + x)[|z|..] == x && (z + y)[|z|..] == y;
      if f == Narrow {
        NarrowCountIsRight(v, n);
      } else {
        WidePadding(v, n);
      }
    }
  }
}
