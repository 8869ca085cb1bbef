/** The key bytes of a volume journal record: a packed header with start LBA, LBA count and number of old
    blocks, then one checksum per LBA, then the old blocks.  Integers are little-endian. */
module JournalKey {
  import opened VolumeTypes
  import opened Widths

  type Byte = b: int | 0 <= b < 256

  const HEADER_SIZE: int := 16
  const CSUM_SIZE: int := 2
  const BLK_SIZE: int := 8

  function Pow256(n: nat): (p: nat)
    ensures p > 0
  {
    if n == 0 then 1 else 256 * Pow256(n - 1)
  }

  /** Byte `j` of an integer, least significant first. */
  function ByteOf(x: nat, j: nat): Byte
    decreases j
  {
    if j == 0 then x % 256 else ByteOf(x / 256, j - 1)
  }

  function LE(x: nat, n: nat): (bs: seq<Byte>)
    ensures |bs| == n
  {
    seq(n, j requires 0 <= j < n => ByteOf(x, j))
  }

  function FromLE(bs: seq<Byte>): nat {
    if bs == [] then 0 else bs[0] + 256 * FromLE(bs[1..])
  }

  lemma {:induction false} LERoundTrip(x: nat, n: nat)
    requires x < Pow256(n)
    ensures FromLE(LE(x, n)) == x
    decreases n
  {
    if n > 0 {
      LERoundTrip(x / 256, n - 1);
      assert LE(x, n)[1..] == LE(x / 256, n - 1);
    }
  }

  lemma PowersOf256()
    ensures Pow256(2) == TWO16 && Pow256(4) == TWO32 && Pow256(8) == TWO64
  {
    assert Pow256(1) == 256;
    assert Pow256(2) == 256 * 256;
    assert Pow256(3) == 256 * Pow256(2);
    assert Pow256(4) == 256 * Pow256(3);
    assert Pow256(5) == 256 * Pow256(4);
    assert Pow256(6) == 256 * Pow256(5);
    assert Pow256(7) == 256 * Pow256(6);
  }

  /** A block id as an integer: bit 0 marks a list of pieces, then 31 bits of block number, 16 bits of
      block count and 16 bits of chunk number. */
  function BlkBits(b: Blk): nat {
    2 * b.num + TWO32 * 1 + TWO48 * b.chunk
  }

  function BlkFromBits(x: nat): Blk {
    Blk((x / TWO48) % TWO16, (x % TWO32) / 2)
  }

  lemma BlkBitsRoundTrip(b: Blk)
    ensures BlkBits(b) < TWO64 && BlkFromBits(BlkBits(b)) == b
  {
    var x := BlkBits(b);
    assert x / TWO48 == b.chunk;
    assert x % TWO32 == 2 * b.num by {
      assert x == TWO32 * (1 + TWO16 * b.chunk) + 2 * b.num;
    }
  }

  function Header(lba: nat, nlbas: nat, numOld: nat): (bs: seq<Byte>)
    ensures |bs| == HEADER_SIZE
  {
    LE(lba, 8) + LE(nlbas, 4) + LE(numOld, 2) + [0, 0]
  }

  function CsumBytes(csums: seq<Csum>): (bs: seq<Byte>)
    ensures |bs| == CSUM_SIZE * |csums|
  {
    if csums == [] then [] else CsumBytes(csums[..|csums| - 1]) + LE(csums[|csums| - 1], CSUM_SIZE)
  }

  function OldBytes(olds: seq<Blk>): (bs: seq<Byte>)
    ensures |bs| == BLK_SIZE * |olds|
  {
    if olds == [] then [] else OldBytes(olds[..|olds| - 1]) + LE(BlkBits(olds[|olds| - 1]), BLK_SIZE)
  }

  /** The record; the number of old blocks is stored in 16 bits. */
  function Key(lba: nat, csums: seq<Csum>, olds: seq<Blk>): (bs: seq<Byte>)
    ensures |bs| == HEADER_SIZE + CSUM_SIZE * |csums| + BLK_SIZE * |olds|
  {
    Header(lba, |csums|, |olds| % TWO16) + CsumBytes(csums) + OldBytes(olds)
  }

  // ---------- the layout ----------

  /** The bytes of a record: bytes 0 to 7 are the start LBA, 8 to 11 the number of LBAs, 12 and 13 the number of old
      blocks modulo 2^16, 14 and 15 padding; from byte 16 on two bytes per checksum, and then eight per old block,
      with the block number from bit 1, the count 1 from bit 32 and the chunk from bit 48.  All are little-endian. */
  lemma Layout(lba: nat, csums: seq<Csum>, olds: seq<Blk>)
    requires lba < 0x1_0000_0000_0000_0000 && |csums| < 0x1_0000_0000
    ensures var key := Key(lba, csums, olds);
            && |key| == 16 + 2 * |csums| + 8 * |olds|
            && Eight(key, 0) == lba && Four(key, 8) == |csums| && Two(key, 12) == |olds| % 0x1_0000
            && (forall i :: 0 <= i < |csums| ==> Two(key, 16 + 2 * i) == csums[i])
            && (forall i :: 0 <= i < |olds| ==>
                              Eight(key, 16 + 2 * |csums| + 8 * i)
                              == 2 * olds[i].num + 0x1_0000_0000 + 0x1_0000_0000_0000 * olds[i].chunk)
  {
    var key := Key(lba, csums, olds);
    HeaderLayout(lba, csums, olds, key);
    forall i | 0 <= i < |csums|
      ensures Two(key, 16 + 2 * i) == csums[i]
    {
      CsumRoundTrip(lba, csums, olds, i);
      TwoBytes(key, 16 + 2 * i);
    }
    forall i | 0 <= i < |olds|
      ensures Eight(key, 16 + 2 * |csums| + 8 * i)
              == 2 * olds[i].num + 0x1_0000_0000 + 0x1_0000_0000_0000 * olds[i].chunk
    {
      OldLayout(lba, csums, olds, i, key);
    }
  }

  /** Little-endian integers of two, four and eight bytes. */
  ghost function Two(key: seq<Byte>, at: nat): nat
    requires at + 2 <= |key|
  {
    key[at] as int + 0x100 * (key[at + 1] as int)
  }

  ghost function Four(key: seq<Byte>, at: nat): nat
    requires at + 4 <= |key|
  {
    Two(key, at) + 0x1_0000 * Two(key, at + 2)
  }

  ghost function Eight(key: seq<Byte>, at: nat): nat
    requires at + 8 <= |key|
  {
    Four(key, at) + 0x1_0000_0000 * Four(key, at + 4)
  }

  lemma TwoBytes(key: seq<Byte>, at: nat)
    requires at + 2 <= |key|
    ensures ReadLE(key, at, 2) == Two(key, at) < 0x1_0000
  {
    var bs := key[at..at + 2];
    assert bs[1..] == [key[at + 1]] && bs[1..][1..] == [];
    assert FromLE(bs[1..]) == key[at + 1] as int;
  }

  /** Reading `n` bytes is reading two and then the rest. */
  lemma ReadTwo(key: seq<Byte>, at: nat, n: nat)
    requires n >= 2 && at + n <= |key|
    ensures ReadLE(key, at, n) == Two(key, at) + 0x1_0000 * ReadLE(key, at + 2, n - 2)
  {
    var bs := key[at..at + n];
    assert bs[1..][0] == key[at + 1];
    assert bs[1..][1..] == key[at + 2..at + 2 + (n - 2)];
    assert FromLE(bs[1..]) == bs[1..][0] + 256 * FromLE(bs[1..][1..]);
  }

  lemma FourBytes(key: seq<Byte>, at: nat)
    requires at + 4 <= |key|
    ensures ReadLE(key, at, 4) == Four(key, at)
  {
    ReadTwo(key, at, 4);
    TwoBytes(key, at + 2);
  }

  lemma EightBytes(key: seq<Byte>, at: nat)
    requires at + 8 <= |key|
    ensures ReadLE(key, at, 8) == Eight(key, at)
  {
    ReadTwo(key, at, 8);
    ReadTwo(key, at + 2, 6);
    FourBytes(key, at + 4);
  }

  lemma HeaderLayout(lba: nat, csums: seq<Csum>, olds: seq<Blk>, key: seq<Byte>)
    requires lba < 0x1_0000_0000_0000_0000 && |csums| < 0x1_0000_0000 && key == Key(lba, csums, olds)
    ensures Eight(key, 0) == lba && Four(key, 8) == |csums| && Two(key, 12) == |olds| % 0x1_0000
  {
    HeaderRoundTrip(lba, csums, olds);
    EightBytes(key, 0);
    FourBytes(key, 8);
    TwoBytes(key, 12);
  }

  lemma OldLayout(lba: nat, csums: seq<Csum>, olds: seq<Blk>, i: nat, key: seq<Byte>)
    requires i < |olds| && key == Key(lba, csums, olds)
    ensures Eight(key, 16 + 2 * |csums| + 8 * i)
            == 2 * olds[i].num + 0x1_0000_0000 + 0x1_0000_0000_0000 * olds[i].chunk
  {
    var at := 16 + 2 * |csums| + 8 * i;
    assert key[at..at + 8] == OldBytes(olds)[8 * i..8 * i + 8];
    OldSlice(olds, i);
    PowersOf256();
    BlkBitsRoundTrip(olds[i]);
    LERoundTrip(BlkBits(olds[i]), 8);
    EightBytes(key, at);
  }

  // ---------- reading a record back ----------

  function ReadLE(key: seq<Byte>, at: nat, n: nat): nat
    requires at + n <= |key|
  {
    FromLE(key[at..at + n])
  }

  function StartLba(key: seq<Byte>): nat
    requires |key| >= HEADER_SIZE
  {
    ReadLE(key, 0, 8)
  }

  function NumLbas(key: seq<Byte>): nat
    requires |key| >= HEADER_SIZE
  {
    ReadLE(key, 8, 4)
  }

  function NumOld(key: seq<Byte>): nat
    requires |key| >= HEADER_SIZE
  {
    ReadLE(key, 12, 2)
  }

  function CsumAt(key: seq<Byte>, at: nat): Csum
    requires at + CSUM_SIZE <= |key|
  {
    ReadLE(key, at, CSUM_SIZE) % TWO16
  }

  function OldAt(key: seq<Byte>, at: nat): Blk
    requires at + BLK_SIZE <= |key|
  {
    BlkFromBits(ReadLE(key, at, BLK_SIZE))
  }

  lemma HeaderSlices(lba: nat, nlbas: nat, numOld: nat, rest: seq<Byte>)
    ensures var key := Header(lba, nlbas, numOld) + rest;
            key[0..8] == LE(lba, 8) && key[8..12] == LE(nlbas, 4) && key[12..14] == LE(numOld, 2)
  {
  }

  lemma {:induction false} CsumSlice(csums: seq<Csum>, i: nat)
    requires i < |csums|
    ensures CsumBytes(csums)[CSUM_SIZE * i..CSUM_SIZE * i + CSUM_SIZE] == LE(csums[i], CSUM_SIZE)
    decreases |csums|
  {
    var n := |csums| - 1;
    var init := CsumBytes(csums[..n]);
    if i < n {
      CsumSlice(csums[..n], i);
      assert CsumBytes(csums)[CSUM_SIZE * i..CSUM_SIZE * i + CSUM_SIZE]
             == init[CSUM_SIZE * i..CSUM_SIZE * i + CSUM_SIZE];
    }
  }

  lemma {:induction false} OldSlice(olds: seq<Blk>, i: nat)
    requires i < |olds|
    ensures OldBytes(olds)[BLK_SIZE * i..BLK_SIZE * i + BLK_SIZE] == LE(BlkBits(olds[i]), BLK_SIZE)
    decreases |olds|
  {
    var n := |olds| - 1;
    var init := OldBytes(olds[..n]);
    if i < n {
      OldSlice(olds[..n], i);
      assert OldBytes(olds)[BLK_SIZE * i..BLK_SIZE * i + BLK_SIZE] == init[BLK_SIZE * i..BLK_SIZE * i + BLK_SIZE];
    }
  }

  /** Decoding a record gives back the header, with the number of old blocks modulo 2^16. */
  lemma HeaderRoundTrip(lba: nat, csums: seq<Csum>, olds: seq<Blk>)
    requires lba < TWO64 && |csums| < TWO32
    ensures var key := Key(lba, csums, olds);
            StartLba(key) == lba && NumLbas(key) == |csums| && NumOld(key) == |olds| % TWO16
  {
    PowersOf256();
    var key := Key(lba, csums, olds);
    assert key == Header(lba, |csums|, |olds| % TWO16) + (CsumBytes(csums) + OldBytes(olds));
    HeaderSlices(lba, |csums|, |olds| % TWO16, CsumBytes(csums) + OldBytes(olds));
    LERoundTrip(lba, 8);
    LERoundTrip(|csums|, 4);
    LERoundTrip(|olds| % TWO16, 2);
  }

  /** Walking two bytes per LBA from the end of the header meets the checksums in LBA order. */
  lemma CsumRoundTrip(lba: nat, csums: seq<Csum>, olds: seq<Blk>, i: nat)
    requires i < |csums|
    ensures CsumAt(Key(lba, csums, olds), HEADER_SIZE + CSUM_SIZE * i) == csums[i]
  {
    var key := Key(lba, csums, olds);
    var at := HEADER_SIZE + CSUM_SIZE * i;
    assert key[at..at + CSUM_SIZE] == CsumBytes(csums)[CSUM_SIZE * i..CSUM_SIZE * i + CSUM_SIZE];
    CsumSlice(csums, i);
    PowersOf256();
    LERoundTrip(csums[i], CSUM_SIZE);
  }

  /** Skipping all checksums, in one jump or one by one, meets the old blocks in the order written. */
  lemma OldRoundTrip(lba: nat, csums: seq<Csum>, olds: seq<Blk>, i: nat)
    requires i < |olds|
    ensures OldAt(Key(lba, csums, olds), HEADER_SIZE + CSUM_SIZE * |csums| + BLK_SIZE * i) == olds[i]
  {
    var key := Key(lba, csums, olds);
    var at := HEADER_SIZE + CSUM_SIZE * |csums| + BLK_SIZE * i;
    assert key[at..at + BLK_SIZE] == OldBytes(olds)[BLK_SIZE * i..BLK_SIZE * i + BLK_SIZE];
    OldSlice(olds, i);
    PowersOf256();
    BlkBitsRoundTrip(olds[i]);
    LERoundTrip(BlkBits(olds[i]), BLK_SIZE);
  }

  // ---------- writing a record ----------

  /** Store an integer at a position of the key buffer. */
  method PutLE(buf: array<Byte>, at: nat, x: nat, n: nat)
    requires at + n <= buf.Length
    modifies buf
    ensures buf[..at] == old(buf[..at])
    ensures buf[at..at + n] == LE(x, n)
    ensures buf[at + n..] == old(buf[at + n..])
    decreases n
  {
    if n > 0 {
      buf[at] := x % 256;
      PutLE(buf, at + 1, x / 256, n - 1);
      assert buf[at] == buf[..at + 1][at] == x % 256;
      assert buf[..at] == buf[..at + 1][..at];
      assert buf[at..at + n] == [buf[at]] + buf[at + 1..at + n];
    } else {
      assert buf[at..at + n] == [];
    }
  }

  method PutHeader(buf: array<Byte>, lba: nat, nlbas: nat, numOld: nat)
    requires HEADER_SIZE <= buf.Length
    modifies buf
    ensures buf[..HEADER_SIZE] == Header(lba, nlbas, numOld)
  {
    PutLE(buf, 0, lba, 8);
    PutLE(buf, 8, nlbas, 4);
    assert buf[..8] == LE(lba, 8);
    PutLE(buf, 12, numOld, 2);
    assert buf[..12] == LE(lba, 8) + LE(nlbas, 4);
    buf[14], buf[15] := 0, 0;
  }

  method PutCsums(buf: array<Byte>, at: nat, csums: seq<Csum>)
    requires at + CSUM_SIZE * |csums| <= buf.Length
    modifies buf
    ensures buf[..at + CSUM_SIZE * |csums|] == old(buf[..at]) + CsumBytes(csums)
  {
    var cursor := at;
    for i := 0 to |csums|
      invariant cursor == at + CSUM_SIZE * i
      invariant buf[..cursor] == old(buf[..at]) + CsumBytes(csums[..i])
    {
      PutLE(buf, cursor, csums[i], CSUM_SIZE);
      assert csums[..i + 1][..i] == csums[..i];
      assert buf[..cursor + CSUM_SIZE] == buf[..cursor] + buf[cursor..cursor + CSUM_SIZE];
      cursor := cursor + CSUM_SIZE;
    }
    assert csums[..|csums|] == csums;
  }

  method PutOlds(buf: array<Byte>, at: nat, olds: seq<Blk>)
    requires at + BLK_SIZE * |olds| <= buf.Length
    modifies buf
    ensures buf[..at + BLK_SIZE * |olds|] == old(buf[..at]) + OldBytes(olds)
  {
    var cursor := at;
    for i := 0 to |olds|
      invariant cursor == at + BLK_SIZE * i
      invariant buf[..cursor] == old(buf[..at]) + OldBytes(olds[..i])
    {
      PutLE(buf, cursor, BlkBits(olds[i]), BLK_SIZE);
      assert olds[..i + 1][..i] == olds[..i];
      assert buf[..cursor + BLK_SIZE] == buf[..cursor] + buf[cursor..cursor + BLK_SIZE];
      cursor := cursor + BLK_SIZE;
    }
    assert olds[..|olds|] == olds;
  }

  /** The buffer is sized for the record and filled by a moving cursor. */
  method EncodeKey(lba: nat, csums: seq<Csum>, olds: seq<Blk>) returns (key: seq<Byte>)
    ensures key == Key(lba, csums, olds)
  {
    var size := HEADER_SIZE + CSUM_SIZE * |csums| + BLK_SIZE * |olds|;
    var buf := new Byte[size](_ => 0);
    PutHeader(buf, lba, |csums|, |olds| % TWO16);
    PutCsums(buf, HEADER_SIZE, csums);
    PutOlds(buf, HEADER_SIZE + CSUM_SIZE * |csums|, olds);
    key := buf[..];
    assert key == buf[..size];
  }
}
