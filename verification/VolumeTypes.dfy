/** The values that travel between a volume's index, its journal and the data service. */
module VolumeTypes {
  import opened Spans
  import opened Widths

  type BlkNum = n: int | 0 <= n < TWO31
  type ChunkNum = n: int | 0 <= n < TWO16
  type Csum = n: int | 0 <= n < TWO16

  /** The contents of one block. */
  type Data = seq<bv8>

  /** A single block, as stored in an index entry. */
  datatype Blk = Blk(chunk: ChunkNum, num: BlkNum)

  /** A run of consecutive blocks in one chunk. */
  datatype Piece = Piece(chunk: ChunkNum, num: BlkNum, count: nat)

  predicate Fits(p: Piece) {
    p.num + p.count <= TWO31
  }

  /** Pieces as the allocator hands them out, with a 16-bit block count. */
  predicate AllFit(ps: seq<Piece>) {
    forall i :: 0 <= i < |ps| ==> Fits(ps[i]) && 0 < ps[i].count < TWO16
  }

  function Nth(p: Piece, i: nat): Blk
    requires Fits(p) && i < p.count
  {
    Blk(p.chunk, p.num + i)
  }

  /** The single blocks of a piece, in order. */
  function Blocks(p: Piece): (bs: seq<Blk>)
    requires Fits(p)
    ensures |bs| == p.count
    ensures forall i :: 0 <= i < p.count ==> bs[i] == Nth(p, i)
  {
    seq(p.count, i requires 0 <= i < p.count => Nth(p, i))
  }

  /** The single blocks of a list of pieces, in order. */
  function Flatten(ps: seq<Piece>): (bs: seq<Blk>)
    requires AllFit(ps)
    decreases |ps|
  {
    if ps == [] then [] else Flatten(ps[..|ps| - 1]) + Blocks(ps[|ps| - 1])
  }

  lemma FlattenSnoc(ps: seq<Piece>, k: nat)
    requires AllFit(ps) && k < |ps|
    ensures Flatten(ps[..k + 1]) == Flatten(ps[..k]) + Blocks(ps[k])
  {
    assert ps[..k + 1][..k] == ps[..k];
  }

  lemma {:induction false} FlattenMonotone(ps: seq<Piece>, k: nat)
    requires AllFit(ps) && k <= |ps|
    ensures |Flatten(ps[..k])| <= |Flatten(ps)|
    ensures Flatten(ps[..k]) == Flatten(ps)[..|Flatten(ps[..k])|]
    decreases |ps| - k
  {
    if k == |ps| {
      assert ps[..k] == ps;
    } else {
      FlattenSnoc(ps, k);
      FlattenMonotone(ps, k + 1);
    }
  }

  /** An index entry. */
  datatype Value = Value(blk: Blk, csum: Csum)

  type Index = map<int, Value>

  /** What a write knows about one LBA: where it goes, and what the index held before. */
  datatype BlockInfo = BlockInfo(newBlk: Blk, newCsum: Csum, prior: Option<Value>)

  type Info = map<int, BlockInfo>
}
