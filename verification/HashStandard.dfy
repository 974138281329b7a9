/**
 What `Hash` is, told without its own padding and folding: a padded message described byte by
 byte (FIPS 180-4 section 5.1, FIPS 202 sections 5.1 and 6.1) and a chain of compressions
 described from its last block.
 */
module HashStandard {
  import opened Codes
  import opened Blocks
  import opened HashSpec

  /** The number these bytes stand for, most significant byte first. */
  function Value(bytes: seq<byte>): nat {
    if bytes == [] then 0 else 256 * Value(bytes[..|bytes| - 1]) + bytes[|bytes| - 1] as nat
  }

  /** The length field of SHA-2: 64 bits for blocks of 64 bytes, 128 bits for blocks of 128. */
  function FieldSize(v: Variant): nat {
    if BlockSize(v) == 64 then 8 else 16
  }

  /** One bit, the fewest zeros, and the message length in bits as a big-endian number. */
  predicate PaddedSha2(v: Variant, m: seq<byte>, x: seq<byte>) {
    var l := FieldSize(v);
    && |x| % BlockSize(v) == 0 && |m| + 1 + l <= |x| < |m| + 1 + l + BlockSize(v)
    && x[..|m|] == m && x[|m|] == 0x80
    && (forall i | |m| < i < |x| - l :: x[i] == 0)
    && Value(x[|x| - l..]) == 8 * |m|
  }

  /** The suffix 01, a one bit, zeros and a last one bit, in bytes filled from their low end. */
  predicate PaddedSha3(v: Variant, m: seq<byte>, x: seq<byte>) {
    && |x| % BlockSize(v) == 0 && |m| < |x| <= |m| + BlockSize(v)
    && x[..|m|] == m
    && forall i | |m| <= i < |x| :: x[i] as int == (if i == |m| then 0x06 else 0) + if i == |x| - 1 then 0x80 else 0
  }

  predicate IsPadded(v: Variant, m: seq<byte>, x: seq<byte>) {
    if v in {Sha3x224, Sha3x256, Sha3x384, Sha3x512} then PaddedSha3(v, m, x) else PaddedSha2(v, m, x)
  }

  /** Block after block from the initial state; the last block is compressed last. */
  function Chain<S>(alg: Alg<S>, x: seq<byte>): S {
    if |x| < alg.B() then alg.iv else alg.compress(Chain(alg, x[..|x| - alg.B()]), x[|x| - alg.B()..])
  }

  // ------------------------------------------------------------------- numbers as bytes

  lemma {:induction false} ValueOfBigEndian(n: nat, width: nat)
    requires n < Pow256(width)
    ensures Value(BigEndian(n, width)) == n
  {
    if width > 0 {
      var rest := BigEndian(n / 256, width - 1);
      assert BigEndian(n, width) == rest + [(n % 256) as byte];
      assert BigEndian(n, width)[..width - 1] == rest;
      ValueOfBigEndian(n / 256, width - 1);
    }
  }

  lemma {:induction false} BigEndianOfValue(bytes: seq<byte>)
    ensures Value(bytes) < Pow256(|bytes|) && BigEndian(Value(bytes), |bytes|) == bytes
  {
    if bytes != [] {
      var rest, last := bytes[..|bytes| - 1], bytes[|bytes| - 1];
      BigEndianOfValue(rest);
      DivModUnique(Value(bytes), 256, Value(rest), last as int);
      assert rest + [last] == bytes;
    }
  }

  lemma PowersOf256()
    ensures Pow256(8) == 0x1_0000_0000_0000_0000
    ensures Pow256(16) == 0x1_0000_0000_0000_0000_0000_0000_0000_0000
  {
    assert Pow256(4) == 0x1_0000_0000;
    assert Pow256(12) == 0x1_0000_0000_0000_0000_0000_0000;
  }

  /** A field holding this length is the length field, and the length is one the standard defines. */
  lemma FieldIs(v: Variant, n: nat, field: seq<byte>)
    requires FamilyOf(v) != Sponge
    ensures |field| == FieldSize(v) && Value(field) == 8 * n <==> InStandard(v, n) && field == LengthField(FamilyOf(v), n)
  {
    PowersOf256();
    if InStandard(v, n) {
      SmallIsItsRemainder(8 * n, Pow256(FieldSize(v)));
      ValueOfBigEndian(8 * n, FieldSize(v));
    }
    if |field| == FieldSize(v) && Value(field) == 8 * n {
      BigEndianOfValue(field);
    }
  }

  // ------------------------------------------------------------------------- padding

  lemma OnlyOneLength(b: nat, x: nat, y: nat, low: nat)
    requires b > 0 && x % b == 0 && y % b == 0 && low <= x < low + b && low <= y < low + b
    ensures x == y
  {
    if x < y { RoomForBlock(x, y, b); }
    if y < x { RoomForBlock(y, x, b); }
  }

  lemma LengthAddsUp(n: nat, p: nat, b: nat)
    requires b > 0 && (n % b + p) % b == 0
    ensures (n + p) % b == 0
  {
    WholeIsAligned(n, b);
    ModOfSum(Whole(n, b), n % b + p, b);
  }

  lemma PaddedLength(v: Variant, m: seq<byte>)
    ensures (|m| + |Padding(v, |m| % BlockSize(v), |m|)|) % BlockSize(v) == 0
  {
    PaddingCompletesBlock(v, |m| % BlockSize(v), |m|);
    LengthAddsUp(|m|, |Padding(v, |m| % BlockSize(v), |m|)|, BlockSize(v));
  }

  /** A message with 0x80, z zeros and a field behind it, byte by byte. */
  lemma PartsOf(m: seq<byte>, z: nat, field: seq<byte>, x: seq<byte>)
    ensures x == m + ([0x80] + Zeros(z) + field) <==>
      && |x| == |m| + 1 + z + |field| && x[..|m|] == m && x[|m|] == 0x80
      && (forall i | |m| < i < |m| + 1 + z :: x[i] == 0) && x[|m| + 1 + z..] == field
  {
    if |x| == |m| + 1 + z + |field| && x[..|m|] == m && x[|m|] == 0x80 && x[|m| + 1 + z..] == field
       && forall i | |m| < i < |m| + 1 + z :: x[i] == 0 {
      assert x == m + [0x80] + x[|m| + 1..|m| + 1 + z] + x[|m| + 1 + z..];
      assert x[|m| + 1..|m| + 1 + z] == Zeros(z);
      assert m + [0x80] + Zeros(z) + field == m + ([0x80] + Zeros(z) + field);
    }
  }

  function Zeroes(v: Variant, n: nat): nat
    requires FamilyOf(v) != Sponge
  {
    ZeroFill(BlockSize(v), n % BlockSize(v), FieldSize(v))
  }

  /** The padding of SHA-2 adds up to whole blocks, with the fewest zeros that do. */
  lemma ZerosAreFewest(v: Variant, m: seq<byte>)
    requires FamilyOf(v) != Sponge
    ensures Padding(v, |m| % BlockSize(v), |m|) == [0x80] + Zeros(Zeroes(v, |m|)) + LengthField(FamilyOf(v), |m|)
    ensures (|m| + 1 + Zeroes(v, |m|) + FieldSize(v)) % BlockSize(v) == 0
    ensures |LengthField(FamilyOf(v), |m|)| == FieldSize(v)
  {
    PaddedLength(v, m);
  }

  lemma FewestZeros(v: Variant, m: seq<byte>, x: seq<byte>)
    requires FamilyOf(v) != Sponge && PaddedSha2(v, m, x)
    ensures |x| == |m| + 1 + Zeroes(v, |m|) + FieldSize(v)
  {
    ZerosAreFewest(v, m);
    OnlyOneLength(BlockSize(v), |x|, |m| + 1 + Zeroes(v, |m|) + FieldSize(v), |m| + 1 + FieldSize(v));
  }

  lemma OnlySha2Padding(v: Variant, m: seq<byte>, x: seq<byte>)
    requires FamilyOf(v) != Sponge && PaddedSha2(v, m, x)
    ensures InStandard(v, |m|)
    ensures x == m + ([0x80] + Zeros(Zeroes(v, |m|)) + LengthField(FamilyOf(v), |m|))
  {
    FewestZeros(v, m, x);
    var field := x[|m| + 1 + Zeroes(v, |m|)..];
    FieldIs(v, |m|, field);
    PartsOf(m, Zeroes(v, |m|), field, x);
  }

  lemma Sha2PaddingFits(v: Variant, m: seq<byte>, x: seq<byte>)
    requires FamilyOf(v) != Sponge && InStandard(v, |m|)
    requires x == m + ([0x80] + Zeros(Zeroes(v, |m|)) + LengthField(FamilyOf(v), |m|))
    ensures PaddedSha2(v, m, x)
  {
    var z, field := Zeroes(v, |m|), LengthField(FamilyOf(v), |m|);
    FieldIs(v, |m|, field);
    ZerosAreFewest(v, m);
    PartsOf(m, z, field, x);
    assert |x| - FieldSize(v) == |m| + 1 + z;
  }

  lemma Sha2PaddingIs(v: Variant, m: seq<byte>, x: seq<byte>)
    requires FamilyOf(v) != Sponge
    ensures PaddedSha2(v, m, x) <==> InStandard(v, |m|) && x == m + Padding(v, |m| % BlockSize(v), |m|)
  {
    ZerosAreFewest(v, m);
    if PaddedSha2(v, m, x) {
      OnlySha2Padding(v, m, x);
    } else if InStandard(v, |m|) && x == m + Padding(v, |m| % BlockSize(v), |m|) {
      Sha2PaddingFits(v, m, x);
    }
  }

  lemma Sha3PaddingIs(v: Variant, m: seq<byte>, x: seq<byte>)
    requires FamilyOf(v) == Sponge
    ensures PaddedSha3(v, m, x) <==> x == m + Padding(v, |m| % BlockSize(v), |m|)
  {
    var b, tail := BlockSize(v), |m| % BlockSize(v);
    var p := Padding(v, tail, |m|);
    PaddedLength(v, m);
    assert |p| == b - tail;
    if PaddedSha3(v, m, x) {
      OnlyOneLength(b, |x|, |m + p|, |m| + 1);
      assert x == m + x[|m|..];
      assert x[|m|..] == p;
    }
  }

  /** Every message the standard defines has exactly one padded form. */
  lemma PaddingIsStandard(v: Variant, m: seq<byte>, x: seq<byte>)
    ensures IsPadded(v, m, x) <==> InStandard(v, |m|) && x == m + Padding(v, |m| % BlockSize(v), |m|)
  {
    if FamilyOf(v) == Sponge {
      Sha3PaddingIs(v, m, x);
    } else {
      Sha2PaddingIs(v, m, x);
    }
  }

  // -------------------------------------------------------------------------- folding

  lemma {:induction false} FoldIsChain<S>(alg: Alg<S>, x: seq<byte>)
    requires |x| % alg.B() == 0
    ensures Fold(alg, alg.iv, x) == Chain(alg, x)
  {
    if |x| > 0 {
      AlignedMinusBlock(|x|, alg.B());
      var front, last := x[..|x| - alg.B()], x[|x| - alg.B()..];
      assert x == front + last;
      FoldAppend(alg, alg.iv, front, last);
      FoldIsChain(alg, front);
      assert last[..alg.B()] == last && last[alg.B()..] == [];
    }
  }

  /** The hash of a message is the truncated chain over its padded form. */
  lemma HashIsStandard<S(!new)>(alg: Alg<S>, m: seq<byte>, x: seq<byte>)
    requires Sound(alg) && IsPadded(alg.variant, m, x)
    ensures Hash(alg, m) == alg.encode(Chain(alg, x))[..DigestSize(alg.variant)]
  {
    PaddingIsStandard(alg.variant, m, x);
    FoldIsChain(alg, x);
  }

  /** Block, state and digest sizes as the standards relate them. */
  lemma SizesAreStandard(v: Variant)
    ensures v in {Sha224, Sha256, Sha384, Sha512, Sha512t224, Sha512t256} ==> BlockSize(v) == 2 * StateSize(v)
    ensures v in {Sha3x224, Sha3x256, Sha3x384, Sha3x512} ==> StateSize(v) == 200 && BlockSize(v) + 2 * DigestSize(v) == 200
    ensures BlockSize(v) == 64 <==> v in {Sha224, Sha256}
    ensures 8 * DigestSize(v) == match v
      case Sha224 | Sha512t224 | Sha3x224 => 224
      case Sha256 | Sha512t256 | Sha3x256 => 256
      case Sha384 | Sha3x384 => 384
      case Sha512 | Sha3x512 => 512
  {
  }

  /** One message carries as many whole blocks as the communication buffer has room for, and no more. */
  lemma CapacityIsLargest<S>(alg: Alg<S>, n: nat)
    requires n % alg.B() == 0
    ensures n == 0 || RequestOverhead(alg.variant) + n <= alg.commLen <==> n <= alg.M()
  {
    CapacityIsAligned(alg);
    var room := alg.commLen - RequestOverhead(alg.variant);
    if room >= 0 && alg.M() < n {
      RoomForBlock(alg.M(), n, alg.B());
    }
  }
}
