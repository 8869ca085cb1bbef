/** The prefix index table: keys and values are split into a shared prefix and a suffix, and a write is
    one range put in which every entry is the first one shifted. */
module PrefixIndex {
  import opened VolumeTypes
  import opened Widths
  import opened FixedIndex
  import opened JournalKey

  type U32 = n: int | 0 <= n < TWO32

  datatype PackedKey = PackedKey(base: U32, offset: U32)

  datatype PackedValue = PackedValue(prefix: U32, suffix: U32, csum: Csum)

  predicate IsLba(l: int) {
    0 <= l < TWO64
  }

  function PackKey(l: int): PackedKey
    requires IsLba(l)
  {
    PackedKey(l / TWO32, l % TWO32)
  }

  function KeyLba(k: PackedKey): int {
    k.base * TWO32 + k.offset
  }

  /** Prefix first, then suffix. */
  function Compare(a: PackedKey, b: PackedKey): int {
    if a.base < b.base then -1
    else if a.base > b.base then 1
    else if a.offset < b.offset then -1
    else if a.offset > b.offset then 1
    else 0
  }

  /** Only the suffix moves, in 32-bit arithmetic. */
  function ShiftKey(k: PackedKey, n: nat): PackedKey {
    PackedKey(k.base, (k.offset + n) % TWO32)
  }

  /** The difference of the suffixes, read as a signed 32-bit integer. */
  function Distance(k: PackedKey, from: PackedKey): int {
    var d := (k.offset - from.offset) % TWO32;
    if d < TWO31 then d else d - TWO32
  }

  function PackValue(b: Blk, csum: Csum): PackedValue {
    PackedValue(BlkBits(b) / TWO32 % TWO32, BlkBits(b) % TWO32 / 2, csum)
  }

  /** Back to a block id, whose block number has 31 bits. */
  function UnpackValue(v: PackedValue): Value {
    Value(Blk(v.prefix / TWO16, v.suffix % TWO31), v.csum)
  }

  function BlkCount(v: PackedValue): int {
    v.prefix % TWO16
  }

  /** The block number moves along, the checksum is looked up. */
  function ShiftValue(v: PackedValue, n: nat, info: Info, start: int): PackedValue
    requires start + n in info
  {
    PackedValue(v.prefix, (v.suffix + n) % TWO32, info[start + n].newCsum)
  }

  lemma KeyRoundTrip(l: int)
    requires IsLba(l)
    ensures KeyLba(PackKey(l)) == l
    ensures PackKey(l).base == l / 0x1_0000_0000 && PackKey(l).offset == l % 0x1_0000_0000
  {
  }

  lemma ValueRoundTrip(b: Blk, csum: Csum)
    ensures UnpackValue(PackValue(b, csum)) == Value(b, csum) && BlkCount(PackValue(b, csum)) == 1
    ensures PackValue(b, csum) == PackedValue(0x1_0000 * b.chunk + 1, b.num, csum)
  {
    assert BlkBits(b) == TWO32 * (1 + TWO16 * b.chunk) + 2 * b.num;
    assert BlkBits(b) % TWO32 == 2 * b.num && BlkBits(b) / TWO32 == 1 + TWO16 * b.chunk;
  }

  /** The order of the packed keys is the order of the LBAs. */
  lemma CompareIsNumeric(a: int, b: int)
    requires IsLba(a) && IsLba(b)
    ensures Compare(PackKey(a), PackKey(b)) == (if a < b then -1 else if a == b then 0 else 1)
  {
  }

  /** A shifted key names the LBA `n` further on exactly when that LBA has the same prefix. */
  lemma ShiftKeyExact(l: int, n: nat)
    requires IsLba(l) && n < TWO32
    ensures KeyLba(ShiftKey(PackKey(l), n)) == l + n <==> l / TWO32 == (l + n) / TWO32
    ensures l / TWO32 == (l + n) / TWO32 && n < TWO31 ==> Distance(PackKey(l + n), PackKey(l)) == n
  {
    var k := PackKey(l);
    if k.offset + n < TWO32 {
      assert (l + n) / TWO32 == l / TWO32;
    } else {
      assert (l + n) / TWO32 == l / TWO32 + 1;
    }
  }

  lemma ShiftValueExact(p: Piece, n: nat, csum: Csum, info: Info, start: int)
    requires Fits(p) && n < p.count && start + n in info
    ensures UnpackValue(ShiftValue(PackValue(Nth(p, 0), csum), n, info, start))
            == Value(Nth(p, n), info[start + n].newCsum)
  {
    ValueRoundTrip(Nth(p, 0), csum);
  }

  /** The write's notes describe one contiguous piece. */
  ghost predicate DescribesPiece(info: Info, start: int, p: Piece) {
    && Fits(p) && p.count > 0
    && forall l :: start <= l < start + p.count ==> l in info && info[l].newBlk == Nth(p, l - start)
  }

  /** The index after the first `n` entries of the range put. */
  function RangePut(idx: Index, info: Info, start: int, n: nat): Index
    requires IsLba(start) && Described(info, start, start + n)
  {
    if n == 0 then idx
    else
      var first := PackValue(info[start].newBlk, info[start].newCsum);
      RangePut(idx, info, start, n - 1)
      [KeyLba(ShiftKey(PackKey(start), n - 1)) := UnpackValue(ShiftValue(first, n - 1, info, start))]
  }

  /** For a piece inside one prefix, the range put stores exactly what one put per LBA stores. */
  lemma {:induction false} PrefixRefinesFixed(idx: Index, info: Info, start: int, p: Piece, n: nat)
    requires IsLba(start) && DescribesPiece(info, start, p) && n <= p.count
    requires start / TWO32 == (start + p.count - 1) / TWO32
    ensures Described(info, start, start + n)
    ensures RangePut(idx, info, start, n) == PutRange(idx, info, start, start + n)
    decreases n
  {
    if n > 0 {
      PrefixRefinesFixed(idx, info, start, p, n - 1);
      assert (start + n - 1) / TWO32 == start / TWO32;
      assert p.count <= TWO31;
      ShiftKeyExact(start, n - 1);
      ShiftValueExact(p, n - 1, info[start].newCsum, info, start);
    }
  }

  class PrefixIndexTable {
    var entries: Index

    constructor ()
      ensures entries == map[]
    {
      entries := map[];
    }

    /** One range put for the whole piece; a failed put leaves the index alone.  It does to the index and
        to the noted previous entries what the fixed table does LBA by LBA. */
    method WriteToIndex(start: int, end: int, info: Info, ghost p: Piece, putOk: bool) returns (notes: Info, ok: bool)
      requires IsLba(start) && start <= end
      requires DescribesPiece(info, start, p) && end == start + p.count - 1
      requires start / TWO32 == end / TWO32
      modifies this
      ensures ok == putOk
      ensures Described(info, start, end + 1)
      ensures ok ==> entries == PutRange(old(entries), info, start, end + 1)
      ensures ok ==> notes == Capture(old(entries), info, start, end + 1)
      ensures !ok ==> entries == old(entries) && notes == info
    {
      PrefixRefinesFixed(entries, info, start, p, p.count);
      if !putOk {
        return info, false;
      }
      notes := Capture(entries, info, start, end + 1);
      entries := RangePut(entries, info, start, end + 1 - start);
      ok := true;
    }
  }
}
