/**
 What a user may do (wolfhsm/wh_auth.h): one byte per message group, whose last
 entry is the admin flag, 256 action bits per group packed in 32-bit words, and a
 short list of key ids.
 */
module Permissions {
  import opened Codes

  const GROUPS := 14
  const ACTIONS_PER_GROUP := 256
  const ACTION_WORDS := 8
  const MAX_KEY_IDS := 2

  datatype RawPerms = Perms(
    groups: seq<byte>,
    actions: seq<seq<bv32>>,
    keyIdCount: uint16,
    keyIds: seq<uint32>)

  predicate Shaped(p: RawPerms) {
    && |p.groups| == GROUPS + 1
    && |p.actions| == GROUPS
    && (forall g | 0 <= g < GROUPS :: |p.actions[g]| == ACTION_WORDS)
    && |p.keyIds| == MAX_KEY_IDS
  }

  type Perms = p: RawPerms | Shaped(p)
    witness Perms(seq(15, _ => 0), seq(14, _ => seq(8, _ => 0)), 0, seq(2, _ => 0))

  const NO_WORDS: seq<bv32> := [0, 0, 0, 0, 0, 0, 0, 0]

  const NO_PERMS: Perms :=
    Perms([0, 0, 0, 0, 0, 0, 0, 0, 0, 0, 0, 0, 0, 0, 0],
          [NO_WORDS, NO_WORDS, NO_WORDS, NO_WORDS, NO_WORDS, NO_WORDS, NO_WORDS,
           NO_WORDS, NO_WORDS, NO_WORDS, NO_WORDS, NO_WORDS, NO_WORDS, NO_WORDS],
          0, [0, 0])

  predicate IsAdmin(p: Perms) {
    p.groups[GROUPS] != 0
  }

  /** 1 shifted left k times. */
  function Mask(k: nat): bv32
    requires k < 32
  {
    if k == 0 then 1 else Mask(k - 1) << 1
  }

  predicate BitSet(word: bv32, mask: bv32) {
    word & mask != 0
  }

  /** The test `(p & ~q) == 0` on one word of action bits. */
  predicate WordWithin(p: bv32, q: bv32) {
    p & !q == 0
  }

  /** Action bit `a` of group `g`, as WH_AUTH_ACTION_TO_WORD_AND_BITMASK finds it. */
  predicate HasBit(p: Perms, g: nat, a: nat)
    requires g < GROUPS && a < ACTIONS_PER_GROUP
  {
    BitSet(p.actions[g][a / 32], Mask(a % 32))
  }

  function KeyList(p: Perms): (keys: seq<nat>) {
    p.keyIds[..Min(p.keyIdCount, MAX_KEY_IDS)]
  }

  /** The keys of a record are its first keyIdCount ids, of which there are two at most. */
  lemma KeyListIs(p: Perms, key: nat)
    ensures key in KeyList(p) <==>
      (p.keyIdCount >= 1 && p.keyIds[0] == key) || (p.keyIdCount >= 2 && p.keyIds[1] == key)
  {
    if p.keyIdCount >= 1 && p.keyIds[0] == key {
      assert KeyList(p)[0] == key;
    }
    if p.keyIdCount >= 2 && p.keyIds[1] == key {
      assert KeyList(p)[1] == key;
    }
  }

  /** The record as the backend stores it: key count within range, unused ids zeroed. */
  function Clamp(p: Perms): (q: Perms)
    ensures q.keyIdCount <= MAX_KEY_IDS
    ensures KeyList(q) == KeyList(p)
  {
    Perms(p.groups, p.actions, Min(p.keyIdCount, MAX_KEY_IDS),
          seq(MAX_KEY_IDS, i requires 0 <= i < MAX_KEY_IDS => if i < p.keyIdCount then p.keyIds[i] else 0))
  }

  /** What is stored, field by field: everything as given, but for a key count above two and ids beyond it. */
  lemma ClampIs(p: Perms)
    ensures var q := Clamp(p);
      && q.groups == p.groups && q.actions == p.actions
      && q.keyIdCount == (if p.keyIdCount > 2 then 2 else p.keyIdCount)
      && q.keyIds[0] == (if p.keyIdCount >= 1 then p.keyIds[0] else 0)
      && q.keyIds[1] == (if p.keyIdCount >= 2 then p.keyIds[1] else 0)
  {
  }

  /** What wh_Auth_UserAdd asks of the permissions a non-admin caller hands out. */
  predicate Within(p: Perms, q: Perms) {
    && !IsAdmin(p)
    && (forall g | 0 <= g < GROUPS :: p.groups[g] != 0 ==> q.groups[g] != 0)
    && (forall g, w | 0 <= g < GROUPS && 0 <= w < ACTION_WORDS :: WordWithin(p.actions[g][w], q.actions[g][w]))
    && (forall k | k in KeyList(p) :: k in KeyList(q))
  }

  /** A session with these permissions may run this action of this group. */
  predicate Permits(p: Perms, group: nat, action: nat) {
    && group < GROUPS
    && p.groups[group] != 0
    && action < ACTIONS_PER_GROUP
    && HasBit(p, group, action)
  }

  // ---------------------------------------------------------------- bit masks

  lemma MaskedByInclusion(p: bv32, q: bv32, m: bv32)
    requires p & !q == 0 && p & m != 0
    ensures q & m != 0
  {
  }

  lemma InclusionIsTransitive(p: bv32, q: bv32, r: bv32)
    requires p & !q == 0 && q & !r == 0
    ensures p & !r == 0
  {
  }

  lemma MaskTable()
    ensures Mask(0) == 0x1 && Mask(1) == 0x2 && Mask(2) == 0x4 && Mask(3) == 0x8
    ensures Mask(4) == 0x10 && Mask(5) == 0x20 && Mask(6) == 0x40 && Mask(7) == 0x80
    ensures Mask(8) == 0x100 && Mask(9) == 0x200 && Mask(10) == 0x400 && Mask(11) == 0x800
    ensures Mask(12) == 0x1000 && Mask(13) == 0x2000 && Mask(14) == 0x4000 && Mask(15) == 0x8000
    ensures Mask(16) == 0x1_0000 && Mask(17) == 0x2_0000 && Mask(18) == 0x4_0000 && Mask(19) == 0x8_0000
    ensures Mask(20) == 0x10_0000 && Mask(21) == 0x20_0000 && Mask(22) == 0x40_0000 && Mask(23) == 0x80_0000
    ensures Mask(24) == 0x100_0000 && Mask(25) == 0x200_0000 && Mask(26) == 0x400_0000 && Mask(27) == 0x800_0000
    ensures Mask(28) == 0x1000_0000 && Mask(29) == 0x2000_0000
    ensures Mask(30) == 0x4000_0000 && Mask(31) == 0x8000_0000
  {
  }

  /** A word that shares no bit with any of the 32 masks is zero. */
  lemma NoBitMeansZero(x: bv32)
    requires forall k | 0 <= k < 32 :: x & Mask(k) == 0
    ensures x == 0
  {
    MaskTable();
    assert x & Mask(0) == 0 && x & Mask(1) == 0 && x & Mask(2) == 0 && x & Mask(3) == 0;
    assert x & Mask(4) == 0 && x & Mask(5) == 0 && x & Mask(6) == 0 && x & Mask(7) == 0;
    assert x & Mask(8) == 0 && x & Mask(9) == 0 && x & Mask(10) == 0 && x & Mask(11) == 0;
    assert x & Mask(12) == 0 && x & Mask(13) == 0 && x & Mask(14) == 0 && x & Mask(15) == 0;
    assert x & Mask(16) == 0 && x & Mask(17) == 0 && x & Mask(18) == 0 && x & Mask(19) == 0;
    assert x & Mask(20) == 0 && x & Mask(21) == 0 && x & Mask(22) == 0 && x & Mask(23) == 0;
    assert x & Mask(24) == 0 && x & Mask(25) == 0 && x & Mask(26) == 0 && x & Mask(27) == 0;
    assert x & Mask(28) == 0 && x & Mask(29) == 0 && x & Mask(30) == 0 && x & Mask(31) == 0;
  }

  lemma OneBitMissing(p: bv32, q: bv32, m: bv32)
    requires (p & m != 0) ==> (q & m != 0)
    requires m & (m - 1) == 0
    ensures (p & !q) & m == 0
  {
  }

  lemma OneBitShifts(m: bv32)
    requires m & (m - 1) == 0
    ensures (m << 1) & ((m << 1) - 1) == 0
  {
  }

  lemma {:induction false} MaskIsOneBit(k: nat)
    requires k < 32
    ensures Mask(k) & (Mask(k) - 1) == 0
  {
    if k > 0 {
      MaskIsOneBit(k - 1);
      OneBitShifts(Mask(k - 1));
    }
  }

  lemma OutsideBitIsMissing(p: bv32, q: bv32, k: nat)
    requires k < 32
    requires (BitSet(p, Mask(k))) ==> (BitSet(q, Mask(k)))
    ensures (p & !q) & Mask(k) == 0
  {
    MaskIsOneBit(k);
    OneBitMissing(p, q, Mask(k));
  }

  lemma BitwiseImpliesWordTest(p: bv32, q: bv32)
    requires forall k | 0 <= k < 32 :: BitSet(p, Mask(k)) ==> BitSet(q, Mask(k))
    ensures p & !q == 0
  {
    forall k | 0 <= k < 32
      ensures (p & !q) & Mask(k) == 0
    {
      OutsideBitIsMissing(p, q, k);
    }
    NoBitMeansZero(p & !q);
  }

  lemma WordTestImpliesBit(p: bv32, q: bv32, k: nat)
    requires k < 32
    requires p & !q == 0
    ensures BitSet(p, Mask(k)) ==> BitSet(q, Mask(k))
  {
    if BitSet(p, Mask(k)) {
      MaskedByInclusion(p, q, Mask(k));
    }
  }

  predicate BitsWithin(p: bv32, q: bv32) {
    forall k | 0 <= k < 32 :: BitSet(p, Mask(k)) ==> BitSet(q, Mask(k))
  }

  /** The word test `p & ~q` says exactly that every bit of p is a bit of q. */
  lemma WordTestIsBitwise(p: bv32, q: bv32)
    ensures WordWithin(p, q) <==> BitsWithin(p, q)
  {
    if WordWithin(p, q) {
      forall k | 0 <= k < 32
        ensures BitSet(p, Mask(k)) ==> BitSet(q, Mask(k))
      {
        WordTestImpliesBit(p, q, k);
      }
    } else if BitsWithin(p, q) {
      BitwiseImpliesWordTest(p, q);
    }
  }

  // ---------------------------------------------------------- authority order

  ghost predicate GroupBitsWithin(p: Perms, q: Perms, g: nat)
    requires g < GROUPS
  {
    forall a | 0 <= a < ACTIONS_PER_GROUP :: HasBit(p, g, a) ==> HasBit(q, g, a)
  }

  /** Reference reading of Within: no admin flag, and every group, bit and key is one of q's. */
  ghost predicate AuthorityWithin(p: Perms, q: Perms) {
    && !IsAdmin(p)
    && (forall g | 0 <= g < GROUPS :: p.groups[g] != 0 ==> q.groups[g] != 0)
    && (forall g | 0 <= g < GROUPS :: GroupBitsWithin(p, q, g))
    && (forall k | k in KeyList(p) :: k in KeyList(q))
  }

  lemma WordsToBits(p: Perms, q: Perms, g: nat)
    requires g < GROUPS
    requires forall w | 0 <= w < ACTION_WORDS :: WordWithin(p.actions[g][w], q.actions[g][w])
    ensures GroupBitsWithin(p, q, g)
  {
    forall a | 0 <= a < ACTIONS_PER_GROUP && HasBit(p, g, a)
      ensures HasBit(q, g, a)
    {
      WordTestIsBitwise(p.actions[g][a / 32], q.actions[g][a / 32]);
    }
  }

  lemma BitAddress(p: Perms, g: nat, w: nat, k: nat)
    requires g < GROUPS && w < ACTION_WORDS && k < 32
    ensures HasBit(p, g, 32 * w + k) <==> BitSet(p.actions[g][w], Mask(k))
  {
    assert (32 * w + k) / 32 == w && (32 * w + k) % 32 == k;
  }

  lemma BitsToWord(p: Perms, q: Perms, g: nat, w: nat)
    requires g < GROUPS && w < ACTION_WORDS
    requires GroupBitsWithin(p, q, g)
    ensures BitsWithin(p.actions[g][w], q.actions[g][w])
  {
    forall k | 0 <= k < 32
      ensures BitSet(p.actions[g][w], Mask(k)) ==> BitSet(q.actions[g][w], Mask(k))
    {
      BitAddress(p, g, w, k);
      BitAddress(q, g, w, k);
    }
  }

  /** The word-by-word test of the source decides inclusion of authority, both ways. */
  lemma WithinIsAuthority(p: Perms, q: Perms)
    ensures Within(p, q) <==> AuthorityWithin(p, q)
  {
    if Within(p, q) {
      forall g | 0 <= g < GROUPS
        ensures GroupBitsWithin(p, q, g)
      {
        WordsToBits(p, q, g);
      }
    }
    if AuthorityWithin(p, q) {
      forall g, w | 0 <= g < GROUPS && 0 <= w < ACTION_WORDS
        ensures WordWithin(p.actions[g][w], q.actions[g][w])
      {
        BitsToWord(p, q, g, w);
        WordTestIsBitwise(p.actions[g][w], q.actions[g][w]);
      }
    }
  }

  lemma WithinIsTransitive(p: Perms, q: Perms, r: Perms)
    requires Within(p, q) && Within(q, r)
    ensures Within(p, r)
  {
    forall g, w | 0 <= g < GROUPS && 0 <= w < ACTION_WORDS
      ensures WordWithin(p.actions[g][w], r.actions[g][w])
    {
      InclusionIsTransitive(p.actions[g][w], q.actions[g][w], r.actions[g][w]);
    }
  }

  /** Clamping a record changes neither what it may do nor how it compares. */
  lemma ClampKeepsAuthority(p: Perms, q: Perms)
    ensures Within(Clamp(p), q) <==> Within(p, q)
    ensures Within(q, Clamp(p)) <==> Within(q, p)
  {
    assert Clamp(p).groups == p.groups && Clamp(p).actions == p.actions;
  }

  lemma ClampKeepsPermits(p: Perms, group: nat, action: nat)
    ensures Permits(Clamp(p), group, action) <==> Permits(p, group, action)
    ensures IsAdmin(Clamp(p)) <==> IsAdmin(p)
  {
  }

  /** Whatever the smaller record permits, the larger permits too. */
  lemma PermitsIsMonotone(p: Perms, q: Perms, group: nat, action: nat)
    requires Within(p, q)
    requires Permits(p, group, action)
    ensures Permits(q, group, action)
  {
    WithinIsAuthority(p, q);
  }
}
