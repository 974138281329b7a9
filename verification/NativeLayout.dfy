/**
 The index records as bytes: whAuthUser (wolfhsm/wh_auth.h) laid out with natural alignment,
 little-endian, padding zeroed. It shows that a sound layout exists.
 */
module NativeLayout {
  import opened Codes
  import opened Permissions
  import opened AuthDb
  import opened AuthStore

  const NAME_SIZE := 32
  const RECORD_SIZE := 516

  // ------------------------------------------------------------------- numbers

  function Put16(n: uint16): (b: seq<byte>)
    ensures |b| == 2
  {
    [(n % 256) as byte, (n / 256) as byte]
  }

  function Get16(b: seq<byte>): uint16
    requires |b| == 2
  {
    b[0] as nat + 256 * b[1] as nat
  }

  function Put32(n: uint32): (b: seq<byte>)
    ensures |b| == 4
  {
    Put16(n % 0x1_0000) + Put16(n / 0x1_0000)
  }

  function Get32(b: seq<byte>): uint32
    requires |b| == 4
  {
    Get16(b[..2]) + 0x1_0000 * Get16(b[2..])
  }

  lemma Number16(n: uint16)
    ensures Get16(Put16(n)) == n
  {
  }

  lemma Number32(n: uint32)
    ensures Get32(Put32(n)) == n
  {
    Number16(n % 0x1_0000);
    Number16(n / 0x1_0000);
  }

  function Number(w: bv32): uint32 {
    w as nat
  }

  function Word(n: uint32): bv32 {
    n as bv32
  }

  lemma WordOfNumber(w: bv32)
    ensures Word(Number(w)) == w
  {
  }

  function PutWords(words: seq<bv32>): (b: seq<byte>)
    ensures |b| == 4 * |words|
  {
    if words == [] then [] else Put32(Number(words[0])) + PutWords(words[1..])
  }

  function GetWords(b: seq<byte>, n: nat): (words: seq<bv32>)
    requires |b| == 4 * n
    ensures |words| == n
  {
    if n == 0 then [] else [Word(Get32(b[..4]))] + GetWords(b[4..], n - 1)
  }

  lemma {:induction false} Words(words: seq<bv32>)
    ensures GetWords(PutWords(words), |words|) == words
  {
    if words != [] {
      Number32(Number(words[0]));
      WordOfNumber(words[0]);
      Words(words[1..]);
    }
  }

  function PutGroups(groups: seq<seq<bv32>>): (b: seq<byte>)
    requires forall g | g in groups :: |g| == ACTION_WORDS
    ensures |b| == 4 * ACTION_WORDS * |groups|
  {
    if groups == [] then [] else PutWords(groups[0]) + PutGroups(groups[1..])
  }

  function GetGroups(b: seq<byte>, n: nat): (groups: seq<seq<bv32>>)
    requires |b| == 4 * ACTION_WORDS * n
    ensures |groups| == n && forall g | g in groups :: |g| == ACTION_WORDS
  {
    if n == 0 then []
    else [GetWords(b[..4 * ACTION_WORDS], ACTION_WORDS)] + GetGroups(b[4 * ACTION_WORDS..], n - 1)
  }

  lemma {:induction false} Groups(groups: seq<seq<bv32>>)
    requires forall g | g in groups :: |g| == ACTION_WORDS
    ensures GetGroups(PutGroups(groups), |groups|) == groups
  {
    if groups != [] {
      Words(groups[0]);
      Groups(groups[1..]);
    }
  }

  // ---------------------------------------------------------------------- names

  /** strncpy's padding: the characters, then zeros to the end of the field. */
  function PutName(name: CString, size: nat): (b: seq<byte>)
    requires |name| <= size
    ensures |b| == size
  {
    if name == [] then Zeros(size) else [name[0] as int as byte] + PutName(name[1..], size - 1)
  }

  /** The characters before the first zero. */
  function GetName(b: seq<byte>): (name: CString)
    ensures |name| <= |b|
  {
    if b == [] || b[0] == 0 then [] else [b[0] as char] + GetName(b[1..])
  }

  lemma {:induction false} Name(name: CString, size: nat)
    requires |name| <= size
    ensures GetName(PutName(name, size)) == name
  {
    if name != [] {
      Name(name[1..], size - 1);
    }
  }

  // -------------------------------------------------------------------- records

  function PutKeys(count: uint16, first: uint32, second: uint32): (b: seq<byte>)
    ensures |b| == 12
  {
    Put16(count) + (Zeros(2) + (Put32(first) + Put32(second)))
  }

  lemma Keys(count: uint16, first: uint32, second: uint32)
    ensures var b := PutKeys(count, first, second);
      Get16(b[..2]) == count && Get32(b[4..8]) == first && Get32(b[8..]) == second
  {
    var b := PutKeys(count, first, second);
    assert b[..2] == Put16(count) && b[4..8] == Put32(first) && b[8..] == Put32(second);
    Number16(count);
    Number32(first);
    Number32(second);
  }

  function PutPerms(p: Perms): (b: seq<byte>)
    ensures |b| == 476
  {
    p.groups + (Zeros(1) + (PutGroups(p.actions) + PutKeys(p.keyIdCount, p.keyIds[0], p.keyIds[1])))
  }

  function GetPerms(b: seq<byte>): Perms
    requires |b| == 476
  {
    var keys := b[464..];
    Perms(b[..15], GetGroups(b[16..464], GROUPS), Get16(keys[..2]), [Get32(keys[4..8]), Get32(keys[8..])])
  }

  lemma PermsParts(p: Perms)
    ensures var b := PutPerms(p);
      b[..15] == p.groups && b[16..464] == PutGroups(p.actions) && b[464..] == PutKeys(p.keyIdCount, p.keyIds[0], p.keyIds[1])
  {
  }

  lemma PermsRoundTrip(p: Perms)
    ensures GetPerms(PutPerms(p)) == p
  {
    PermsParts(p);
    Groups(p.actions);
    Keys(p.keyIdCount, p.keyIds[0], p.keyIds[1]);
    var q := GetPerms(PutPerms(p));
    assert q.groups == p.groups && q.actions == p.actions && q.keyIds == p.keyIds;
  }

  function PutRecord(r: Record): (b: seq<byte>)
    ensures |b| == RECORD_SIZE
  {
    Put16(r.userId) + (PutName(r.name, NAME_SIZE) + (Zeros(2) + (PutPerms(r.perms)
      + ([if r.active then 1 else 0] + Zeros(3)))))
  }

  function GetRecord(b: seq<byte>): Record
    requires |b| == RECORD_SIZE
  {
    Record(Get16(b[..2]), GetName(b[2..34]), GetPerms(b[36..512]), b[512] != 0)
  }

  lemma RecordRoundTrip(r: Record)
    ensures GetRecord(PutRecord(r)) == r
  {
    var b := PutRecord(r);
    assert b[..2] == Put16(r.userId);
    assert b[2..34] == PutName(r.name, NAME_SIZE);
    assert b[36..512] == PutPerms(r.perms);
    Number16(r.userId);
    Name(r.name, NAME_SIZE);
    PermsRoundTrip(r.perms);
  }

  // ---------------------------------------------------------------------- layout

  function Encode(rs: seq<Record>): (b: seq<byte>)
    ensures |b| == RECORD_SIZE * |rs|
  {
    if rs == [] then [] else PutRecord(rs[0]) + Encode(rs[1..])
  }

  function DecodeSome(b: seq<byte>, n: nat): (rs: seq<Record>)
    requires |b| == RECORD_SIZE * n
    ensures |rs| == n
  {
    if n == 0 then [] else [GetRecord(b[..RECORD_SIZE])] + DecodeSome(b[RECORD_SIZE..], n - 1)
  }

  /** Bytes of any other length, which nobody decodes, stand for empty records. */
  function Decode(b: seq<byte>): (rs: seq<Record>)
    ensures |rs| == MAX_USERS
  {
    if |b| == RECORD_SIZE * MAX_USERS then DecodeSome(b, MAX_USERS) else DecodeSome(Zeros(RECORD_SIZE * MAX_USERS), MAX_USERS)
  }

  lemma DecodeFirst(r: Record, b: seq<byte>, n: nat)
    requires |b| == RECORD_SIZE * n
    ensures DecodeSome(PutRecord(r) + b, n + 1) == [r] + DecodeSome(b, n)
  {
    var all := PutRecord(r) + b;
    assert all[..RECORD_SIZE] == PutRecord(r) && all[RECORD_SIZE..] == b;
    RecordRoundTrip(r);
  }

  lemma {:induction false} RecordsRoundTrip(rs: seq<Record>)
    ensures DecodeSome(Encode(rs), |rs|) == rs
  {
    if rs != [] {
      RecordsRoundTrip(rs[1..]);
      DecodeFirst(rs[0], Encode(rs[1..]), |rs| - 1);
    }
  }

  function Native(): Layout {
    Layout(RECORD_SIZE, Encode, Decode)
  }

  /** What the backend asks of the compiler's layout is met by this one. */
  lemma NativeIsSound()
    ensures SoundLayout(Native())
  {
    forall rs: seq<Record> | |rs| == MAX_USERS
      ensures Native().decode(Native().encode(rs)) == rs
    {
      RecordsRoundTrip(rs);
    }
  }
}
