/** Whole runs of writes, completed or failed on the way, starting from an empty volume. */
module VolumeRuns {
  import opened Spans
  import opened VolumeTypes
  import opened ReadPath
  import opened VolumeSpec
  import opened PieceStore
  import opened Widths

  /** A write that was committed, one that failed after `put` of its entries were in the index, and one whose
      data could not be written. */
  datatype Attempt = Completed(req: WriteReq) | Failed(req: WriteReq, put: nat) | NotWritten(req: WriteReq)

  /** The allocator has given the write the blocks it asked for. */
  ghost predicate Granted(w: WriteReq, blkSize: nat) {
    blkSize > 0 && AllFit(w.pieces) && |Flatten(w.pieces)| == AllocCount(|w.data|, blkSize) <= |w.data| < TWO32
  }

  ghost predicate Possible(v: Vol, a: Attempt, blkSize: nat) {
    Granted(a.req, blkSize) && Admissible(v, Portion(a.req)) && (a.Failed? ==> a.put <= |Flatten(a.req.pieces)|)
  }

  ghost function After(v: Vol, a: Attempt, crc: Data -> Csum, blkSize: nat): Vol
    requires Possible(v, a, blkSize)
  {
    match a
    case Completed(w) => Commit(v, Portion(w), crc)
    case Failed(w, put) => Torn(v, Portion(w), crc, put)
    case NotWritten(w) => v.(alloc := v.alloc + Elems(Flatten(w.pieces)))
  }

  /** `v'` is what the attempt makes of `v`. */
  ghost predicate Happened(v: Vol, a: Attempt, crc: Data -> Csum, blkSize: nat, v': Vol) {
    Possible(v, a, blkSize) && v' == After(v, a, crc, blkSize)
  }

  ghost predicate ValidRun(es: seq<Attempt>, crc: Data -> Csum, blkSize: nat)
    decreases |es|, 0
  {
    es == []
    || (ValidRun(es[..|es| - 1], crc, blkSize) && Possible(Run(es[..|es| - 1], crc, blkSize), es[|es| - 1], blkSize))
  }

  ghost function Run(es: seq<Attempt>, crc: Data -> Csum, blkSize: nat): Vol
    requires ValidRun(es, crc, blkSize)
    decreases |es|, 1
  {
    if es == [] then EMPTY else After(Run(es[..|es| - 1], crc, blkSize), es[|es| - 1], crc, blkSize)
  }

  lemma RunLast(es: seq<Attempt>, crc: Data -> Csum, blkSize: nat)
    requires es != [] && ValidRun(es, crc, blkSize)
    ensures var n := |es| - 1;
            && ValidRun(es[..n], crc, blkSize)
            && Happened(Run(es[..n], crc, blkSize), es[n], crc, blkSize, Run(es, crc, blkSize))
  {
  }

  lemma RunMore(es: seq<Attempt>, a: Attempt, crc: Data -> Csum, blkSize: nat)
    requires ValidRun(es, crc, blkSize) && Possible(Run(es, crc, blkSize), a, blkSize)
    ensures ValidRun(es + [a], crc, blkSize)
    ensures Run(es + [a], crc, blkSize) == After(Run(es, crc, blkSize), a, crc, blkSize)
  {
    assert (es + [a])[..|es|] == es;
  }

  lemma AttemptKeepsInv(v: Vol, a: Attempt, crc: Data -> Csum, blkSize: nat, v': Vol)
    requires VolInv(v, crc) && Happened(v, a, crc, blkSize, v')
    ensures VolInv(v', crc)
  {
    match a
    case Completed(w) => CommitKeepsInv(v, Portion(w), crc, v');
    case Failed(w, put) => TornInv(v, Portion(w), crc, put, v');
    case NotWritten(_) =>
  }

  lemma {:induction false} RunKeepsInv(es: seq<Attempt>, crc: Data -> Csum, blkSize: nat)
    requires ValidRun(es, crc, blkSize)
    ensures VolInv(Run(es, crc, blkSize), crc)
    decreases |es|
  {
    if es != [] {
      var n := |es| - 1;
      RunKeepsInv(es[..n], crc, blkSize);
      RunLast(es, crc, blkSize);
      AttemptKeepsInv(Run(es[..n], crc, blkSize), es[n], crc, blkSize, Run(es, crc, blkSize));
    }
  }

  /** The LBAs of a write in ascending order. */
  function Ascending(lba: int, n: nat): (order: seq<int>)
    ensures |order| == n && forall i :: 0 <= i < n ==> order[i] == lba + i
  {
    seq(n, i => lba + i)
  }

  lemma AscendingTraverses(lba: int, n: nat)
    ensures Traversal(Ascending(lba, n), lba, n)
  {
    forall l
      ensures l in Ascending(lba, n) <==> lba <= l < lba + n
    {
      if lba <= l < lba + n {
        assert Ascending(lba, n)[l - lba] == l;
      }
    }
  }

  lemma OnePiece(p: Piece)
    requires Fits(p) && 0 < p.count < TWO16
    ensures AllFit([p]) && Flatten([p]) == Blocks(p) && Distinct(Flatten([p]))
  {
    assert [p][..0] == [];
  }

  /** As long as the allocator has a free piece of the size asked for, a write to any LBA can follow: whatever a
      run has left behind, the next attempt may be this one. */
  lemma RunGoesOn(es: seq<Attempt>, lba: nat, data: seq<Data>, p: Piece, crc: Data -> Csum, blkSize: nat)
    requires ValidRun(es, crc, blkSize) && 0 < blkSize <= TWO16 && |data| < TWO32 && lba + p.count < TWO64
    requires Fits(p) && 0 < p.count < TWO16 && p.count == AllocCount(|data|, blkSize)
    requires forall i :: 0 <= i < p.count ==> Nth(p, i) !in Run(es, crc, blkSize).alloc
    ensures ValidRun(es + [Completed(WriteReq(lba, data, [p], Ascending(lba, p.count)))], crc, blkSize)
  {
    OnePiece(p);
    AscendingTraverses(lba, p.count);
    AllocExact(|data|, blkSize);
    RunMore(es, Completed(WriteReq(lba, data, [p], Ascending(lba, p.count))), crc, blkSize);
  }

  // ---------- what reads see ----------

  /** How many blocks of the request are in the index after the attempt. */
  function Put(a: Attempt): nat
    requires AllFit(a.req.pieces)
  {
    match a
    case Completed(w) => |Flatten(w.pieces)|
    case Failed(_, put) => put
    case NotWritten(_) => 0
  }

  predicate Covered(a: Attempt, l: int)
    requires AllFit(a.req.pieces)
  {
    a.req.lba <= l < a.req.lba + Put(a)
  }

  /** A completed write puts all its blocks if and only if it is smaller than 2^32 bytes. */
  lemma PutsAllExact(w: WriteReq, blkSize: nat)
    requires Granted(w, blkSize) && blkSize <= TWO16
    ensures Put(Completed(w)) == |w.data| <==> |w.data| * blkSize < TWO32
  {
    AllocExact(|w.data|, blkSize);
  }

  /** A reader of LBA `l` sees `d` if it was written and what it saw before if not. */
  ghost predicate Overwrites(v: Vol, v': Vol, blkSize: nat, l: int, written: bool, d: Data) {
    && Backed(v.index, v.disk) && Backed(v'.index, v'.disk)
    && (l in v'.index <==> written || l in v.index)
    && View(v'.index, v'.disk, blkSize, l) == if written then d else View(v.index, v.disk, blkSize, l)
  }

  function DataAt(w: WriteReq, l: int): Data {
    if Written(w, l) then w.data[l - w.lba] else []
  }

  lemma CommitMaps(v: Vol, w: WriteReq, crc: Data -> Csum, v': Vol, l: int)
    requires Committed(v, w, crc, v')
    ensures l in v'.index <==> Written(w, l) || l in v.index
  {
    CommitIndex(v, w, crc, v', l);
  }

  /** What one commit changes for a reader of one LBA. */
  lemma CommitView(v: Vol, w: WriteReq, crc: Data -> Csum, v': Vol, blkSize: nat, l: int)
    requires VolInv(v, crc) && Committed(v, w, crc, v') && Backed(v'.index, v'.disk)
    ensures Overwrites(v, v', blkSize, l, Written(w, l), DataAt(w, l))
  {
    CommitMaps(v, w, crc, v', l);
    CommitShows(v, w, crc, v', l);
    CellView(v, v', blkSize, l, Written(w, l), DataAt(w, l));
  }

  /** Where `v'` maps `l`, the block there holds `d` if it was written, and what it held before if not. */
  ghost predicate Cell(v: Vol, v': Vol, l: int, written: bool, d: Data) {
    l in v'.index ==>
      && v'.index[l].blk in v'.disk
      && (written ==> v'.disk[v'.index[l].blk] == d)
      && (!written ==>
            l in v.index && v.index[l].blk in v.disk && v'.disk[v'.index[l].blk] == v.disk[v.index[l].blk])
  }

  lemma CommitShows(v: Vol, w: WriteReq, crc: Data -> Csum, v': Vol, l: int)
    requires VolInv(v, crc) && Committed(v, w, crc, v')
    ensures Cell(v, v', l, Written(w, l), DataAt(w, l))
  {
    if l in v'.index {
      CommitCell(v, w, crc, v', l);
    }
  }

  lemma CellView(v: Vol, v': Vol, blkSize: nat, l: int, written: bool, d: Data)
    requires Backed(v.index, v.disk) && Backed(v'.index, v'.disk) && Cell(v, v', l, written, d)
    requires l in v'.index <==> written || l in v.index
    ensures Overwrites(v, v', blkSize, l, written, d)
  {
  }

  /** And what a write changes that put only its first `n` entries. */
  lemma TornView(v: Vol, w: WriteReq, crc: Data -> Csum, n: nat, t: Vol, blkSize: nat, l: int)
    requires VolInv(v, crc) && IsTorn(v, w, crc, n, t) && Backed(t.index, t.disk)
    ensures n <= |w.data| && Overwrites(v, t, blkSize, l, w.lba <= l < w.lba + n, DataAt(w, l))
  {
    TornMaps(v, w, crc, n, t, l);
    if l in t.index {
      TornCell(v, w, crc, n, t, l);
    }
  }

  lemma TornMaps(v: Vol, w: WriteReq, crc: Data -> Csum, n: nat, t: Vol, l: int)
    requires IsTorn(v, w, crc, n, t)
    ensures l in t.index <==> w.lba <= l < w.lba + n || l in v.index
  {
    PartialAt(v.index, w.lba, NewValues(w, crc), n, l);
  }

  /** What a reader of LBA `l` sees changes from `v` to `v'` exactly as the attempt says. */
  ghost predicate Changes(v: Vol, a: Attempt, v': Vol, blkSize: nat, l: int) {
    && AllFit(a.req.pieces) && Put(a) <= |a.req.data| && Backed(v.index, v.disk) && Backed(v'.index, v'.disk)
    && (l in v'.index <==> Covered(a, l) || l in v.index)
    && View(v'.index, v'.disk, blkSize, l) ==
         if Covered(a, l) then a.req.data[l - a.req.lba] else View(v.index, v.disk, blkSize, l)
  }

  /** `sw` is `w` with the first part of its data. */
  predicate Prefix(sw: WriteReq, w: WriteReq) {
    |sw.data| <= |w.data| && sw == w.(data := w.data[..|sw.data|])
  }

  lemma CompletedView(v: Vol, w: WriteReq, sw: WriteReq, crc: Data -> Csum, blkSize: nat, v': Vol, l: int)
    requires Prefix(sw, w) && VolInv(v, crc) && Committed(v, sw, crc, v') && Backed(v'.index, v'.disk)
    ensures Changes(v, Completed(w), v', blkSize, l)
  {
    CommitMaps(v, sw, crc, v', l);
    CommitView(v, sw, crc, v', blkSize, l);
    ViewChanges(v, w, sw, Completed(w), v', blkSize, l);
  }

  lemma FailedView(v: Vol, w: WriteReq, sw: WriteReq, put: nat, crc: Data -> Csum, blkSize: nat, v': Vol, l: int)
    requires Prefix(sw, w) && VolInv(v, crc) && IsTorn(v, sw, crc, put, v') && Backed(v'.index, v'.disk)
    ensures Changes(v, Failed(w, put), v', blkSize, l)
  {
    TornView(v, sw, crc, put, v', blkSize, l);
    ViewChanges(v, w, sw, Failed(w, put), v', blkSize, l);
  }

  /** A prefix of the data shows as the data does. */
  lemma ViewChanges(v: Vol, w: WriteReq, sw: WriteReq, a: Attempt, v': Vol, blkSize: nat, l: int)
    requires AllFit(w.pieces) && a.req == w && Put(a) <= |sw.data| && Prefix(sw, w)
    requires Overwrites(v, v', blkSize, l, w.lba <= l < w.lba + Put(a), DataAt(sw, l))
    ensures Changes(v, a, v', blkSize, l)
  {
  }

  /** An attempt changes what a reader of an LBA sees exactly where it has put an entry. */
  lemma AttemptView(v: Vol, a: Attempt, crc: Data -> Csum, blkSize: nat, v': Vol, l: int)
    requires VolInv(v, crc) && Happened(v, a, crc, blkSize, v') && Backed(v'.index, v'.disk)
    ensures Changes(v, a, v', blkSize, l)
  {
    match a
    case Completed(w) => CompletedView(v, w, Portion(w), crc, blkSize, v', l);
    case Failed(w, put) => FailedView(v, w, Portion(w), put, crc, blkSize, v', l);
    case NotWritten(_) =>
  }

  /** So a write of 2^32 bytes or more completes without its tail: there, reads go on as before. */
  lemma LargeWriteLosesTail(v: Vol, w: WriteReq, crc: Data -> Csum, blkSize: nat, v': Vol)
    requires Granted(w, blkSize) && blkSize <= TWO16 && |w.data| * blkSize >= TWO32
    requires VolInv(v, crc) && Committed(v, Portion(w), crc, v') && Backed(v'.index, v'.disk)
    ensures var l := w.lba + Put(Completed(w));
            Written(w, l) && Overwrites(v, v', blkSize, l, false, [])
  {
    PortionIsCut(w, blkSize);
    TailUnchanged(v, Portion(w), crc, blkSize, v', w.lba + Put(Completed(w)));
  }

  /** The first write to an empty volume, 4 GiB and one block long, asks for one block. */
  lemma LargeWriteRun(data: seq<Data>, crc: Data -> Csum) returns (w: WriteReq)
    requires |data| == 0x10_0001
    ensures w.data == data && Granted(w, 4096) && Put(Completed(w)) == 1
    ensures ValidRun([Completed(w)], crc, 4096)
    ensures var v := Run([Completed(w)], crc, 4096);
            forall l :: 0 <= l < |data| ==> Written(w, l) && (l in v.index <==> l == 0)
  {
    var p := Piece(0, 0, 1);
    assert 0x10_0001 * 4096 % TWO32 == 4096;
    w := WriteReq(0, data, [p], Ascending(0, 1));
    OnePiece(p);
    RunGoesOn([], 0, data, p, crc, 4096);
    assert [] + [Completed(w)] == [Completed(w)];
    RunLast([Completed(w)], crc, 4096);
    forall l | 0 <= l < |data|
      ensures l in Run([Completed(w)], crc, 4096).index <==> l == 0
    {
      CommitMaps(EMPTY, Portion(w), crc, Run([Completed(w)], crc, 4096), l);
    }
  }

  lemma PortionIsCut(w: WriteReq, blkSize: nat)
    requires Granted(w, blkSize) && blkSize <= TWO16 && |w.data| * blkSize >= TWO32
    ensures Portion(w).lba == w.lba && Put(Completed(w)) == |Portion(w).data| < |w.data|
  {
    PutsAllExact(w, blkSize);
  }

  lemma TailUnchanged(v: Vol, sw: WriteReq, crc: Data -> Csum, blkSize: nat, v': Vol, l: int)
    requires VolInv(v, crc) && Committed(v, sw, crc, v') && Backed(v'.index, v'.disk) && l == sw.lba + |sw.data|
    ensures Overwrites(v, v', blkSize, l, false, [])
  {
    CommitView(v, sw, crc, v', blkSize, l);
  }

  /** What an LBA that held `d` holds after one more attempt. */
  function Next(a: Attempt, l: int, d: Option<Data>): Option<Data>
    requires AllFit(a.req.pieces) && Put(a) <= |a.req.data|
  {
    if Covered(a, l) then Some(a.req.data[l - a.req.lba]) else d
  }

  ghost predicate AllBounded(es: seq<Attempt>) {
    forall i :: 0 <= i < |es| ==> AllFit(es[i].req.pieces) && Put(es[i]) <= |es[i].req.data|
  }

  /** The block that the latest attempt covering an LBA put there. */
  ghost function LastWritten(es: seq<Attempt>, l: int): Option<Data>
    requires AllBounded(es)
    decreases |es|
  {
    if es == [] then None else Next(es[|es| - 1], l, LastWritten(es[..|es| - 1], l))
  }

  /** Attempt `k` put a block there, and none after it did. */
  ghost predicate LastCover(es: seq<Attempt>, l: int, k: nat)
    requires AllBounded(es) && k < |es|
  {
    Covered(es[k], l) && forall j :: k < j < |es| ==> !Covered(es[j], l)
  }

  /** What is last written at an LBA is what the latest attempt that put a block there had for it, and nothing if no
      attempt did. */
  lemma {:induction false} LastWrittenExact(es: seq<Attempt>, l: int)
    requires AllBounded(es)
    ensures LastWritten(es, l).None? <==> forall k :: 0 <= k < |es| ==> !Covered(es[k], l)
    ensures forall k :: 0 <= k < |es| && LastCover(es, l, k) ==>
                          LastWritten(es, l) == Some(es[k].req.data[l - es[k].req.lba])
    decreases |es|
  {
    if es != [] {
      var n := |es| - 1;
      LastWrittenExact(es[..n], l);
      forall k | 0 <= k < |es| && LastCover(es, l, k)
        ensures LastWritten(es, l) == Some(es[k].req.data[l - es[k].req.lba])
      {
        if k < n {
          assert LastCover(es[..n], l, k);
        }
      }
      if forall k :: 0 <= k < n ==> !Covered(es[..n][k], l) {
        assert forall k :: 0 <= k < n ==> es[..n][k] == es[k];
      }
    }
  }

  lemma {:induction false} RunIsBounded(es: seq<Attempt>, crc: Data -> Csum, blkSize: nat)
    requires ValidRun(es, crc, blkSize)
    ensures AllBounded(es)
    decreases |es|
  {
    if es != [] {
      var n := |es| - 1;
      RunLast(es, crc, blkSize);
      RunIsBounded(es[..n], crc, blkSize);
      forall i | 0 <= i < |es|
        ensures AllFit(es[i].req.pieces) && Put(es[i]) <= |es[i].req.data|
      {
        assert i < n ==> es[..n][i] == es[i];
      }
    }
  }

  function OrZeros(d: Option<Data>, blkSize: nat): Data {
    if d.Some? then d.value else Zeros(blkSize)
  }

  /** An LBA is mapped exactly if something was written there, and then reads as that, else as zeros. */
  ghost predicate Reads(v: Vol, blkSize: nat, l: int, d: Option<Data>) {
    && Backed(v.index, v.disk)
    && (l in v.index <==> d.Some?)
    && View(v.index, v.disk, blkSize, l) == OrZeros(d, blkSize)
    && (d.None? ==> AllZero(View(v.index, v.disk, blkSize, l), blkSize))
  }

  lemma ReadsStep(v: Vol, a: Attempt, v': Vol, blkSize: nat, l: int, d: Option<Data>)
    requires Changes(v, a, v', blkSize, l)
    ensures Reads(v, blkSize, l, d) ==> Reads(v', blkSize, l, Next(a, l, d))
  {
  }

  /** After any run of attempts each LBA reads as the block last put there, and as a zero block if none was. */
  lemma {:induction false} ReadsSeeLastWrite(es: seq<Attempt>, crc: Data -> Csum, blkSize: nat, l: int)
    requires ValidRun(es, crc, blkSize)
    ensures AllBounded(es) && Reads(Run(es, crc, blkSize), blkSize, l, LastWritten(es, l))
    decreases |es|
  {
    RunIsBounded(es, crc, blkSize);
    if es != [] {
      var n := |es| - 1;
      RunLast(es, crc, blkSize);
      ReadsSeeLastWrite(es[..n], crc, blkSize, l);
      RunKeepsInv(es[..n], crc, blkSize);
      RunKeepsInv(es, crc, blkSize);
      AttemptView(Run(es[..n], crc, blkSize), es[n], crc, blkSize, Run(es, crc, blkSize), l);
      ReadsStep(Run(es[..n], crc, blkSize), es[n], Run(es, crc, blkSize), blkSize, l, LastWritten(es[..n], l));
    }
  }

  lemma ViewIsLast(es: seq<Attempt>, crc: Data -> Csum, blkSize: nat, v: Vol, l: int)
    requires ValidRun(es, crc, blkSize) && v == Run(es, crc, blkSize) && Backed(v.index, v.disk)
    ensures AllBounded(es) && View(v.index, v.disk, blkSize, l) == OrZeros(LastWritten(es, l), blkSize)
  {
    ReadsSeeLastWrite(es, crc, blkSize, l);
  }

  /** A buffer that shows the volume after a run of attempts holds, block by block, what was last put there, and
      zeros where nothing was. */
  lemma ReadShowsLastWrites(es: seq<Attempt>, crc: Data -> Csum, blkSize: nat, v: Vol, bs: seq<Data>, lba: int)
    requires ValidRun(es, crc, blkSize) && v == Run(es, crc, blkSize) && Backed(v.index, v.disk)
    requires Shows(bs, v.index, v.disk, blkSize, lba, |bs|)
    ensures AllBounded(es) && HoldsLast(bs, es, blkSize, lba)
  {
    ViewIsLast(es, crc, blkSize, v, lba);
    forall i | 0 <= i < |bs|
      ensures bs[i] == OrZeros(LastWritten(es, lba + i), blkSize)
      ensures LastWritten(es, lba + i).None? ==> AllZero(bs[i], blkSize)
    {
      ViewIsLast(es, crc, blkSize, v, lba + i);
    }
  }

  /** Each block of the buffer is the one last put at its LBA, and as many zero bytes as a block has where none was. */
  ghost predicate HoldsLast(bs: seq<Data>, es: seq<Attempt>, blkSize: nat, lba: int)
    requires AllBounded(es)
  {
    forall i :: 0 <= i < |bs| ==>
                  && (LastWritten(es, lba + i).Some? ==> bs[i] == LastWritten(es, lba + i).value)
                  && (LastWritten(es, lba + i).None? ==>
                        |bs[i]| == blkSize && forall j :: 0 <= j < blkSize ==> bs[i][j] == 0)
  }

  // ---------- blocks ----------

  /** The attempt leaves a block allocated that nothing maps: a completed write whose record cannot name all old
      blocks, a failed one that had blocks left to put or has overwritten a mapping, and one that was given
      blocks for nothing. */
  ghost predicate Leaks(v: Vol, a: Attempt)
    requires AllFit(a.req.pieces)
  {
    match a
    case Completed(w) => |Olds(v.index, w.order)| >= TWO16
    case Failed(w, put) =>
      put < |Flatten(w.pieces)| || exists l :: w.lba <= l < w.lba + put && l in v.index
    case NotWritten(w) => Flatten(w.pieces) != []
  }

  /** No attempt of the run leaks. */
  ghost predicate NoLeaks(es: seq<Attempt>, crc: Data -> Csum, blkSize: nat)
    requires ValidRun(es, crc, blkSize)
    decreases |es|
  {
    es == []
    || (var n := |es| - 1; NoLeaks(es[..n], crc, blkSize) && !Leaks(Run(es[..n], crc, blkSize), es[n]))
  }

  lemma Unmapped(v: Vol, b: Blk)
    requires b in v.alloc && forall l :: l in v.index ==> v.index[l].blk != b
    ensures !Conserved(v)
  {
    assert !Mapped(v.index, b);
  }

  lemma CommitLeakPersists(v: Vol, w: WriteReq, crc: Data -> Csum, v': Vol, b: Blk)
    requires VolInv(v, crc) && Committed(v, w, crc, v')
    requires b in v.alloc && !Mapped(v.index, b)
    ensures b in v'.alloc && !Mapped(v'.index, b)
  {
    if b in Freed(v.index, w) {
      var l := FreedWasOverwritten(v, w, b);
    }
    forall l | l in v'.index
      ensures v'.index[l].blk != b
    {
      CommitIndex(v, w, crc, v', l);
    }
  }

  lemma TornLeakPersists(v: Vol, w: WriteReq, crc: Data -> Csum, n: nat, t: Vol, b: Blk)
    requires VolInv(v, crc) && IsTorn(v, w, crc, n, t)
    requires b in v.alloc && !Mapped(v.index, b)
    ensures b in t.alloc && !Mapped(t.index, b)
  {
    forall l | l in t.index
      ensures t.index[l].blk != b
    {
      TornCell(v, w, crc, n, t, l);
      TornBlock(v, w, l, n);
    }
  }

  /** A block that is allocated but mapped by nothing stays so: no attempt frees it, none is given it. */
  lemma LeakPersists(v: Vol, a: Attempt, crc: Data -> Csum, blkSize: nat, v': Vol, b: Blk)
    requires VolInv(v, crc) && Happened(v, a, crc, blkSize, v')
    requires b in v.alloc && !Mapped(v.index, b)
    ensures b in v'.alloc && !Mapped(v'.index, b)
  {
    match a
    case Completed(w) => CommitLeakPersists(v, Portion(w), crc, v', b);
    case Failed(w, put) => TornLeakPersists(v, Portion(w), crc, put, v', b);
    case NotWritten(_) =>
  }

  /** The first block that was not put is allocated and mapped by nothing. */
  lemma TornLeaksNew(v: Vol, w: WriteReq, crc: Data -> Csum, n: nat, t: Vol)
    requires VolInv(v, crc) && IsTorn(v, w, crc, n, t) && n < |w.data|
    ensures !Conserved(t)
  {
    var b := Flatten(w.pieces)[n];
    assert b in Flatten(w.pieces);
    forall l | l in t.index
      ensures t.index[l].blk != b
    {
      TornCell(v, w, crc, n, t, l);
    }
    Unmapped(t, b);
  }

  /** And so is the block of a mapping that was overwritten. */
  lemma TornLeaksOld(v: Vol, w: WriteReq, crc: Data -> Csum, n: nat, t: Vol, l: int)
    requires VolInv(v, crc) && IsTorn(v, w, crc, n, t) && w.lba <= l < w.lba + n && l in v.index
    ensures !Conserved(t)
  {
    var b := v.index[l].blk;
    forall m | m in t.index
      ensures t.index[m].blk != b
    {
      TornCell(v, w, crc, n, t, m);
      TornBlock(v, w, m, n);
    }
    Unmapped(t, b);
  }

  lemma TornMapsNew(v: Vol, w: WriteReq, crc: Data -> Csum, t: Vol, b: Blk)
    requires IsTorn(v, w, crc, |w.data|, t) && b in Flatten(w.pieces)
    ensures Mapped(t.index, b)
  {
    var i :| 0 <= i < |w.data| && Flatten(w.pieces)[i] == b;
    TornEntry(v, w, crc, t, i);
  }

  lemma TornEntry(v: Vol, w: WriteReq, crc: Data -> Csum, t: Vol, i: nat)
    requires IsTorn(v, w, crc, |w.data|, t) && i < |w.data|
    ensures Mapped(t.index, Flatten(w.pieces)[i])
  {
    var l := w.lba + i;
    PartialAt(v.index, w.lba, NewValues(w, crc), |w.data|, l);
    assert l in t.index && t.index[l].blk == Flatten(w.pieces)[i];
  }

  lemma TornMapsOld(v: Vol, w: WriteReq, crc: Data -> Csum, t: Vol, l: int)
    requires VolInv(v, crc) && IsTorn(v, w, crc, |w.data|, t) && l in v.index && !Written(w, l)
    ensures Mapped(t.index, v.index[l].blk)
  {
    TornCell(v, w, crc, |w.data|, t, l);
    assert l in t.index && t.index[l].blk == v.index[l].blk;
  }

  /** Otherwise every new block is mapped and every old mapping is still there. */
  lemma TornConserves(v: Vol, w: WriteReq, crc: Data -> Csum, t: Vol)
    requires VolInv(v, crc) && Conserved(v) && IsTorn(v, w, crc, |w.data|, t)
    requires forall l :: w.lba <= l < w.lba + |w.data| ==> l !in v.index
    ensures Conserved(t)
  {
    TornInv(v, w, crc, |w.data|, t);
    forall b | b in t.alloc
      ensures Mapped(t.index, b)
    {
      if b in Flatten(w.pieces) {
        TornMapsNew(v, w, crc, t, b);
      } else {
        assert b in v.alloc;
        var l :| l in v.index && v.index[l].blk == b;
        TornMapsOld(v, w, crc, t, l);
      }
    }
  }

  lemma FailedConserves(v: Vol, w: WriteReq, put: nat, crc: Data -> Csum, t: Vol)
    requires VolInv(v, crc) && Conserved(v) && IsTorn(v, w, crc, put, t)
    ensures Conserved(t) <==> put == |w.data| && forall l :: w.lba <= l < w.lba + put ==> l !in v.index
  {
    if put < |w.data| {
      TornLeaksNew(v, w, crc, put, t);
    } else if l :| w.lba <= l < w.lba + put && l in v.index {
      TornLeaksOld(v, w, crc, put, t, l);
    } else {
      TornConserves(v, w, crc, t);
    }
  }

  lemma NotWrittenConserves(v: Vol, w: WriteReq, crc: Data -> Csum, v': Vol)
    requires VolInv(v, crc) && Conserved(v) && Admissible(v, w)
    requires v' == v.(alloc := v.alloc + Elems(Flatten(w.pieces)))
    ensures Conserved(v') <==> Flatten(w.pieces) == []
  {
    if Flatten(w.pieces) != [] {
      var b := Flatten(w.pieces)[0];
      assert b in Flatten(w.pieces);
      Unmapped(v', b);
    } else {
      assert v'.alloc == v.alloc;
    }
  }

  lemma ConservedStep(v: Vol, a: Attempt, crc: Data -> Csum, blkSize: nat, v': Vol)
    requires VolInv(v, crc) && Happened(v, a, crc, blkSize, v')
    ensures Conserved(v') <==> Conserved(v) && !Leaks(v, a)
  {
    if Conserved(v) {
      match a
      case Completed(w) => CommitConserves(v, Portion(w), crc, v');
      case Failed(w, put) => FailedConserves(v, Portion(w), put, crc, v');
      case NotWritten(w) => NotWrittenConserves(v, Portion(w), crc, v');
    } else {
      NotConservedStays(v, a, crc, blkSize, v');
    }
  }

  lemma NotConservedStays(v: Vol, a: Attempt, crc: Data -> Csum, blkSize: nat, v': Vol)
    requires VolInv(v, crc) && Happened(v, a, crc, blkSize, v') && !Conserved(v)
    ensures !Conserved(v')
  {
    var b :| (b in v.alloc) != Mapped(v.index, b);
    assert b in v.alloc && !Mapped(v.index, b);
    LeakPersists(v, a, crc, blkSize, v', b);
  }

  /** Conservation over whole runs: the allocator holds exactly the mapped blocks if and only if no attempt of
      the run leaked. */
  lemma {:induction false} RunConserves(es: seq<Attempt>, crc: Data -> Csum, blkSize: nat)
    requires ValidRun(es, crc, blkSize)
    ensures Conserved(Run(es, crc, blkSize)) <==> NoLeaks(es, crc, blkSize)
    decreases |es|
  {
    if es != [] {
      var n := |es| - 1;
      RunLast(es, crc, blkSize);
      RunConserves(es[..n], crc, blkSize);
      RunKeepsInv(es[..n], crc, blkSize);
      ConservedStep(Run(es[..n], crc, blkSize), es[n], crc, blkSize, Run(es, crc, blkSize));
    }
  }

  /** A write of fewer than 2^16 blocks always leaves a complete record. */
  lemma {:induction false} ShortWritesAreComplete(idx: Index, order: seq<int>)
    ensures |Olds(idx, order)| <= |order|
    decreases |order|
  {
    if order != [] {
      ShortWritesAreComplete(idx, order[..|order| - 1]);
    }
  }
}
