/** What one committed write does to a volume, and what whole runs of writes do: the volume refines a plain
    map from LBAs to block contents, and its allocator holds exactly the mapped blocks. */
module VolumeSpec {
  import opened Spans
  import opened VolumeTypes
  import opened ReadPath
  import opened Division
  import opened Widths

  datatype Vol = Vol(index: Index, disk: Disk, alloc: set<Blk>)

  const EMPTY: Vol := Vol(map[], map[], {})

  /** A write with the blocks the allocator gave it, which may be fewer than the write has.  `order` is the order
      in which the hash map of the write's notes happens to be traversed when the old blocks are listed. */
  datatype WriteReq = WriteReq(lba: int, data: seq<Data>, pieces: seq<Piece>, order: seq<int>)

  /** The traversal visits each LBA of the write once. */
  ghost predicate Traversal(order: seq<int>, lba: int, n: nat) {
    Distinct(order) && forall l :: l in order <==> lba <= l < lba + n
  }

  /** How many blocks a write of `n` blocks asks for: its size in bytes is computed in 32 bits. */
  function AllocCount(n: nat, blkSize: nat): nat
    requires blkSize > 0
  {
    n * blkSize % TWO32 / blkSize
  }

  /** A write gets all its blocks if and only if it is smaller than 2^32 bytes. */
  lemma AllocExact(n: nat, blkSize: nat)
    requires 0 < blkSize <= TWO16
    ensures AllocCount(n, blkSize) <= n
    ensures AllocCount(n, blkSize) == n <==> n * blkSize < 0x1_0000_0000
    ensures AllocCount(n, blkSize) * blkSize <= n * blkSize % 0x1_0000_0000 < (AllocCount(n, blkSize) + 1) * blkSize
  {
    var bytes, m := n * blkSize, AllocCount(n, blkSize);
    var got := bytes % TWO32;
    assert got == blkSize * m + got % blkSize;
    assert (m + 1) * blkSize == blkSize * m + blkSize;
    if bytes < TWO32 {
      DivMod(bytes, blkSize, n, 0);
    } else {
      assert got <= bytes - TWO32 <= bytes - blkSize;
      assert m * blkSize <= (n - 1) * blkSize;
      Fewer(m, n, blkSize);
    }
  }

  lemma Fewer(m: nat, n: nat, d: nat)
    requires d > 0 && m * d <= (n - 1) * d
    ensures m < n
  {
    if m >= n {
      MulMonotone(n, m, d);
    }
  }

  /** The part of a write that has blocks. */
  function Portion(w: WriteReq): WriteReq
    requires AllFit(w.pieces) && |Flatten(w.pieces)| <= |w.data|
  {
    w.(data := w.data[..|Flatten(w.pieces)|])
  }

  /** What the allocator and the caller guarantee. */
  ghost predicate Admissible(v: Vol, w: WriteReq) {
    && AllFit(w.pieces) && |w.data| < TWO32 && |Flatten(w.pieces)| == |w.data|
    && 0 <= w.lba && w.lba + |w.data| < TWO64
    && Distinct(Flatten(w.pieces))
    && (forall b :: b in Flatten(w.pieces) ==> b !in v.alloc)
    && Traversal(w.order, w.lba, |w.data|)
  }

  function Csums(crc: Data -> Csum, data: seq<Data>): (cs: seq<Csum>)
    ensures |cs| == |data| && forall i :: 0 <= i < |data| ==> cs[i] == crc(data[i])
  {
    seq(|data|, i requires 0 <= i < |data| => crc(data[i]))
  }

  function Values(blks: seq<Blk>, csums: seq<Csum>): (vs: seq<Value>)
    requires |blks| == |csums|
    ensures |vs| == |blks| && forall i :: 0 <= i < |blks| ==> vs[i] == Value(blks[i], csums[i])
  {
    seq(|blks|, i requires 0 <= i < |blks| => Value(blks[i], csums[i]))
  }

  /** Block contents after writing `data` to `blks`, in order. */
  function Store(disk: Disk, blks: seq<Blk>, data: seq<Data>): Disk
    requires |blks| == |data|
    decreases |blks|
  {
    if blks == [] then disk
    else Store(disk, blks[..|blks| - 1], data[..|blks| - 1])[blks[|blks| - 1] := data[|blks| - 1]]
  }

  lemma {:induction false} StoreAt(disk: Disk, blks: seq<Blk>, data: seq<Data>)
    requires |blks| == |data| && Distinct(blks)
    ensures forall i :: 0 <= i < |blks| ==>
              blks[i] in Store(disk, blks, data) && Store(disk, blks, data)[blks[i]] == data[i]
    ensures forall b :: b in disk && b !in blks ==>
              b in Store(disk, blks, data) && Store(disk, blks, data)[b] == disk[b]
    decreases |blks|
  {
    if blks != [] {
      var n := |blks| - 1;
      assert blks == blks[..n] + [blks[n]];
      StoreAt(disk, blks[..n], data[..n]);
    }
  }

  /** The blocks that the LBAs of `order` pointed to, in that order. */
  function Olds(idx: Index, order: seq<int>): seq<Blk>
    decreases |order|
  {
    if order == [] then []
    else
      var l := order[|order| - 1];
      Olds(idx, order[..|order| - 1]) + if l in idx then [idx[l].blk] else []
  }

  /** The old blocks of two traversals, one after the other. */
  lemma {:induction false} OldsAppend(idx: Index, xs: seq<int>, ys: seq<int>)
    ensures Olds(idx, xs + ys) == Olds(idx, xs) + Olds(idx, ys)
    decreases |ys|
  {
    if ys == [] {
      assert xs + ys == xs;
    } else {
      OldsAppend(idx, xs, ys[..|ys| - 1]);
      AppendLast(xs, ys);
    }
  }

  /** An LBA contributes the block it pointed to, if it was mapped. */
  lemma OldsOne(idx: Index, l: int)
    ensures Olds(idx, [l]) == if l in idx then [idx[l].blk] else []
  {
    assert [l][..0] == [];
    assert Olds(idx, [l][..0]) == [];
  }

  lemma {:induction false} OldsMembers(idx: Index, order: seq<int>, b: Blk)
    ensures b in Olds(idx, order) <==> exists l :: l in order && l in idx && idx[l].blk == b
    decreases |order|
  {
    if order != [] {
      var n := |order| - 1;
      assert order == order[..n] + [order[n]];
      OldsMembers(idx, order[..n], b);
    }
  }

  lemma {:induction false} OldsDistinct(idx: Index, order: seq<int>)
    requires Injective(idx) && Distinct(order)
    ensures Distinct(Olds(idx, order))
    decreases |order|
  {
    if order != [] {
      var n := |order| - 1;
      OldsDistinct(idx, order[..n]);
      if order[n] in idx {
        OldsMembers(idx, order[..n], idx[order[n]].blk);
      }
    }
  }

  /** The old blocks that the journal record tells the commit to free: its count has 16 bits. */
  function Freed(idx: Index, w: WriteReq): seq<Blk> {
    var olds := Olds(idx, w.order);
    olds[..|olds| % TWO16]
  }

  ghost function Commit(v: Vol, w: WriteReq, crc: Data -> Csum): Vol
    requires Admissible(v, w)
  {
    var blks := Flatten(w.pieces);
    Vol(v.index + Overlay(w.lba, Values(blks, Csums(crc, w.data))),
        Store(v.disk, blks, w.data),
        v.alloc + Elems(blks) - Elems(Freed(v.index, w)))
  }

  /** `v'` is what committing `w` makes of `v`. */
  ghost predicate Committed(v: Vol, w: WriteReq, crc: Data -> Csum, v': Vol) {
    Admissible(v, w) && v' == Commit(v, w, crc)
  }

  // ---------- the invariant ----------

  ghost predicate Injective(idx: Index) {
    forall l, m :: l in idx && m in idx && l != m ==> idx[l].blk != idx[m].blk
  }

  ghost predicate VolInv(v: Vol, crc: Data -> Csum) {
    && Backed(v.index, v.disk)
    && Injective(v.index)
    && (forall l :: l in v.index ==> v.index[l].blk in v.alloc)
    && (forall l :: l in v.index ==> crc(v.disk[v.index[l].blk]) == v.index[l].csum)
  }

  predicate Written(w: WriteReq, l: int) {
    w.lba <= l < w.lba + |w.data|
  }

  /** Where each LBA points after the commit: inside the written range to a new block, outside as before. */
  lemma CommitIndex(v: Vol, w: WriteReq, crc: Data -> Csum, v': Vol, l: int)
    requires Committed(v, w, crc, v')
    ensures Written(w, l) ==>
              l in v'.index && v'.index[l].blk == Flatten(w.pieces)[l - w.lba] && v'.index[l].blk in Flatten(w.pieces)
    ensures Written(w, l) ==> v'.index[l].csum == crc(w.data[l - w.lba])
    ensures !Written(w, l) ==> (l in v'.index <==> l in v.index) && (l in v.index ==> v'.index[l] == v.index[l])
  {
    OverlayAt(w.lba, Values(Flatten(w.pieces), Csums(crc, w.data)), l);
  }

  /** A block freed by the commit was mapped inside the written range. */
  lemma FreedWasOverwritten(v: Vol, w: WriteReq, b: Blk) returns (l: int)
    requires Admissible(v, w) && b in Freed(v.index, w)
    ensures Written(w, l) && l in v.index && v.index[l].blk == b
  {
    assert b in Olds(v.index, w.order);
    OldsMembers(v.index, w.order, b);
    l :| l in w.order && l in v.index && v.index[l].blk == b;
  }

  /** A block that is mapped after the commit is not among the freed ones. */
  lemma MappedNotFreed(v: Vol, w: WriteReq, crc: Data -> Csum, v': Vol, l: int)
    requires VolInv(v, crc) && Committed(v, w, crc, v') && l in v'.index
    ensures v'.index[l].blk !in Freed(v.index, w) && v'.index[l].blk in v'.alloc
  {
    CommitIndex(v, w, crc, v', l);
    if v'.index[l].blk in Freed(v.index, w) {
      var m := FreedWasOverwritten(v, w, v'.index[l].blk);
      assert false;
    }
  }

  /** Mapped blocks hold what was written, with the right checksum. */
  lemma CommitCell(v: Vol, w: WriteReq, crc: Data -> Csum, v': Vol, l: int)
    requires VolInv(v, crc) && Committed(v, w, crc, v') && l in v'.index
    ensures v'.index[l].blk in v'.disk
    ensures Written(w, l) ==> v'.disk[v'.index[l].blk] == w.data[l - w.lba]
    ensures !Written(w, l) ==> l in v.index && v'.disk[v'.index[l].blk] == v.disk[v.index[l].blk]
  {
    CommitIndex(v, w, crc, v', l);
    StoreAt(v.disk, Flatten(w.pieces), w.data);
    if !Written(w, l) {
      assert v.index[l].blk in v.alloc;
    }
  }

  lemma CommitKeepsInjective(v: Vol, w: WriteReq, crc: Data -> Csum, v': Vol)
    requires VolInv(v, crc) && Committed(v, w, crc, v')
    ensures Injective(v'.index)
  {
    forall l, m | l in v'.index && m in v'.index && l != m
      ensures v'.index[l].blk != v'.index[m].blk
    {
      CommitIndex(v, w, crc, v', l);
      CommitIndex(v, w, crc, v', m);
    }
  }

  /** A commit keeps the invariant; in particular it frees no block that the index still points to. */
  lemma CommitKeepsInv(v: Vol, w: WriteReq, crc: Data -> Csum, v': Vol)
    requires VolInv(v, crc) && Committed(v, w, crc, v')
    ensures VolInv(v', crc)
    ensures forall l :: l in v'.index ==> v'.index[l].blk !in Freed(v.index, w)
  {
    CommitKeepsInjective(v, w, crc, v');
    forall l | l in v'.index
      ensures v'.index[l].blk in v'.alloc && v'.index[l].blk in v'.disk
      ensures crc(v'.disk[v'.index[l].blk]) == v'.index[l].csum && v'.index[l].blk !in Freed(v.index, w)
    {
      MappedNotFreed(v, w, crc, v', l);
      CommitIndex(v, w, crc, v', l);
      CommitCell(v, w, crc, v', l);
    }
  }

  // ---------- refinement of a plain map ----------

  /** The volume as its clients see it. */
  ghost function Contents(v: Vol): map<int, Data>
    requires Backed(v.index, v.disk)
  {
    map l | l in v.index :: v.disk[v.index[l].blk]
  }

  /** Copy-on-write refines overwriting in place. */
  lemma CommitRefinesOverwrite(v: Vol, w: WriteReq, crc: Data -> Csum, v': Vol)
    requires VolInv(v, crc) && Committed(v, w, crc, v')
    ensures VolInv(v', crc)
    ensures Contents(v') == Contents(v) + Overlay(w.lba, w.data)
  {
    CommitKeepsInv(v, w, crc, v');
    forall l
      ensures l in v'.index <==> Written(w, l) || l in v.index
    {
      CommitIndex(v, w, crc, v', l);
    }
    forall l | l in v'.index
      ensures if Written(w, l) then Contents(v')[l] == w.data[l - w.lba]
              else l in v.index && Contents(v')[l] == Contents(v)[l]
    {
      CommitCell(v, w, crc, v', l);
    }
    SameContents(Contents(v'), Contents(v), w);
  }

  lemma SameContents(c': map<int, Data>, c: map<int, Data>, w: WriteReq)
    requires forall l :: l in c' <==> Written(w, l) || l in c
    requires forall l :: l in c' ==> if Written(w, l) then c'[l] == w.data[l - w.lba] else l in c && c'[l] == c[l]
    ensures c' == c + Overlay(w.lba, w.data)
  {
    forall l
      ensures l in c' <==> l in c + Overlay(w.lba, w.data)
      ensures l in c' ==> c'[l] == (c + Overlay(w.lba, w.data))[l]
    {
      OverlayAt(w.lba, w.data, l);
    }
  }

  // ---------- conservation of blocks ----------

  ghost predicate Mapped(idx: Index, b: Blk) {
    exists l :: l in idx && idx[l].blk == b
  }

  /** The allocated blocks are exactly the mapped ones. */
  ghost predicate Conserved(v: Vol) {
    forall b :: b in v.alloc <==> Mapped(v.index, b)
  }

  /** From a volume whose allocated blocks are exactly its mapped blocks, a commit leads to such a volume
      again if and only if it overwrites fewer than 2^16 mapped LBAs; otherwise old blocks leak. */
  lemma CommitConserves(v: Vol, w: WriteReq, crc: Data -> Csum, v': Vol)
    requires VolInv(v, crc) && Conserved(v) && Committed(v, w, crc, v')
    ensures Conserved(v') <==> |Olds(v.index, w.order)| < TWO16
  {
    var olds := Olds(v.index, w.order);
    if |olds| < TWO16 {
      assert Freed(v.index, w) == olds;
      forall b
        ensures b in v'.alloc <==> Mapped(v'.index, b)
      {
        AllocatedIffMapped(v, w, crc, v', b);
      }
    } else {
      var b := FirstUnfreed(v, w, crc);
      LeakedBlock(v, w, crc, v', b);
    }
  }

  lemma FirstUnfreed(v: Vol, w: WriteReq, crc: Data -> Csum) returns (b: Blk)
    requires VolInv(v, crc) && Admissible(v, w) && |Olds(v.index, w.order)| >= TWO16
    ensures b in Olds(v.index, w.order) && b !in Freed(v.index, w)
  {
    var olds := Olds(v.index, w.order);
    var k := |olds| % TWO16;
    OldsDistinct(v.index, w.order);
    b := olds[k];
  }

  lemma AllocatedIffMapped(v: Vol, w: WriteReq, crc: Data -> Csum, v': Vol, b: Blk)
    requires VolInv(v, crc) && Conserved(v) && Committed(v, w, crc, v')
    requires Freed(v.index, w) == Olds(v.index, w.order)
    ensures b in v'.alloc <==> Mapped(v'.index, b)
  {
    if b in Flatten(w.pieces) {
      NewBlockMapped(v, w, crc, v', b);
    } else {
      OldBlockMapped(v, w, crc, v', b);
      OldOrKept(v, w, crc, b);
    }
  }

  lemma NewBlockMapped(v: Vol, w: WriteReq, crc: Data -> Csum, v': Vol, b: Blk)
    requires VolInv(v, crc) && Committed(v, w, crc, v') && b in Flatten(w.pieces)
    ensures b in v'.alloc && Mapped(v'.index, b)
  {
    var i :| 0 <= i < |w.data| && Flatten(w.pieces)[i] == b;
    var l := w.lba + i;
    assert Written(w, l) && l - w.lba == i;
    CommitIndex(v, w, crc, v', l);
    MappedNotFreed(v, w, crc, v', l);
    assert l in v'.index && v'.index[l].blk == b;
  }

  /** A block that is not new stays mapped unless the LBA that pointed to it was overwritten. */
  lemma OldBlockMapped(v: Vol, w: WriteReq, crc: Data -> Csum, v': Vol, b: Blk)
    requires VolInv(v, crc) && Committed(v, w, crc, v') && b !in Flatten(w.pieces)
    ensures Mapped(v'.index, b) <==> exists l :: l in v.index && v.index[l].blk == b && l !in w.order
  {
    if Mapped(v'.index, b) {
      var l :| l in v'.index && v'.index[l].blk == b;
      CommitIndex(v, w, crc, v', l);
      assert l in v.index && v.index[l].blk == b && l !in w.order;
    }
    if l :| l in v.index && v.index[l].blk == b && l !in w.order {
      CommitIndex(v, w, crc, v', l);
      assert l in v'.index && v'.index[l].blk == b;
    }
  }

  /** An allocated block was pointed to by one LBA, which the write either overwrites or does not. */
  lemma OldOrKept(v: Vol, w: WriteReq, crc: Data -> Csum, b: Blk)
    requires VolInv(v, crc) && Conserved(v)
    ensures (b in v.alloc && b !in Olds(v.index, w.order))
            <==> exists l :: l in v.index && v.index[l].blk == b && l !in w.order
  {
    OldsMembers(v.index, w.order, b);
    if b in v.alloc {
      var l :| l in v.index && v.index[l].blk == b;
      assert forall m :: m in v.index && v.index[m].blk == b ==> m == l;
    }
  }

  lemma LeakedBlock(v: Vol, w: WriteReq, crc: Data -> Csum, v': Vol, b: Blk)
    requires VolInv(v, crc) && Committed(v, w, crc, v')
    requires b in Olds(v.index, w.order) && b !in Freed(v.index, w)
    ensures b in v'.alloc && !Mapped(v'.index, b)
  {
    OldsMembers(v.index, w.order, b);
    var m :| m in w.order && m in v.index && v.index[m].blk == b;
    forall l | l in v'.index
      ensures v'.index[l].blk != b
    {
      CommitIndex(v, w, crc, v', l);
    }
  }
}
