/** The read side of a volume: the runs are read into the buffer with zeros in the holes, and the checksums are
    walked. */
module ReadPath {
  import opened VolumeTypes
  import opened FixedIndex
  import opened RunMerge
  import opened Widths

  // ---------- what a list of runs shows ----------

  type Disk = map<Blk, Data>

  /** The contents of a hole: as many zero bytes as a block has. */
  function Zeros(blkSize: nat): (d: Data)
    ensures AllZero(d, blkSize)
  {
    seq(blkSize, _ => 0 as bv8)
  }

  ghost predicate AllZero(d: Data, blkSize: nat) {
    |d| == blkSize && forall j :: 0 <= j < |d| ==> d[j] == 0
  }

  /** Every block of a run has contents. */
  ghost predicate OnDisk(r: Run, disk: Disk)
    requires Fits(r.piece)
  {
    forall j :: 0 <= j < r.piece.count ==> Nth(r.piece, j) in disk
  }

  ghost predicate AllOnDisk(rs: seq<Run>, disk: Disk) {
    RunsFit(rs) && forall k :: 0 <= k < |rs| ==> OnDisk(rs[k], disk)
  }

  /** The block that reading the runs brings to an LBA, and zeros where they leave a hole. */
  ghost function ShownAt(rs: seq<Run>, disk: Disk, blkSize: nat, l: int): Data
    requires AllOnDisk(rs, disk)
    decreases |rs|
  {
    if rs == [] then Zeros(blkSize)
    else
      var r := rs[|rs| - 1];
      if InRun(r, l) then disk[Nth(r.piece, l - r.lba)] else ShownAt(rs[..|rs| - 1], disk, blkSize, l)
  }

  lemma {:induction false} ShownInRun(rs: seq<Run>, lo: int, hi: int, disk: Disk, blkSize: nat, k: nat, l: int)
    requires Ordered(rs, lo, hi) && AllOnDisk(rs, disk) && k < |rs| && InRun(rs[k], l)
    ensures ShownAt(rs, disk, blkSize, l) == disk[Nth(rs[k].piece, l - rs[k].lba)]
    decreases |rs|
  {
    if k < |rs| - 1 {
      ShownInRun(rs[..|rs| - 1], lo, hi, disk, blkSize, k, l);
    }
  }

  lemma {:induction false} ShownOutside(rs: seq<Run>, disk: Disk, blkSize: nat, l: int)
    requires AllOnDisk(rs, disk) && forall k :: 0 <= k < |rs| ==> !InRun(rs[k], l)
    ensures ShownAt(rs, disk, blkSize, l) == Zeros(blkSize)
    decreases |rs|
  {
    if rs != [] {
      ShownOutside(rs[..|rs| - 1], disk, blkSize, l);
    }
  }

  // ---------- filling the buffer ----------

  /** What the code takes for the number of unmapped LBAs before `next`: the distance from a cursor that
      is kept in 32 bits, in unsigned 64-bit arithmetic. */
  function Hole(prevLba: int, prevN: int, next: int): (h: nat) {
    (next - (prevLba + prevN) % TWO32) % TWO64
  }

  /** The same for the rest of the range, which is skipped if the cursor seems to be past its end. */
  function TailHole(prevLba: int, prevN: int, end: int): (h: nat) {
    var edge := (prevLba + prevN) % TWO32;
    if edge < end then end - edge else 0
  }

  /** The cursor is exact below 2^32; from there on every hole comes out too large for any buffer. */
  lemma HoleExact(prevLba: int, prevN: int, edge: int, next: int)
    requires 0 <= edge <= next < TWO64 && (prevLba + prevN) % TWO32 == edge % TWO32
    ensures edge < TWO32 ==> Hole(prevLba, prevN, next) == TailHole(prevLba, prevN, next) == next - edge
    ensures edge >= TWO32 ==> Hole(prevLba, prevN, next) >= TWO32 && TailHole(prevLba, prevN, next) >= TWO32
  {
  }

  /** The first `n` blocks of a buffer show what the runs bring to `lba` and on. */
  ghost predicate Filled(bs: seq<Data>, rs: seq<Run>, disk: Disk, blkSize: nat, lba: int, n: nat)
    requires n <= |bs| && AllOnDisk(rs, disk)
  {
    forall i :: 0 <= i < n ==> bs[i] == ShownAt(rs, disk, blkSize, lba + i)
  }

  /** Where the fill stands before run `k`. */
  ghost function Edge(rs: seq<Run>, lba: int, k: nat): int
    requires k <= |rs|
  {
    if k == 0 then lba else rs[k - 1].lba + rs[k - 1].piece.count
  }

  /** The range can be served: neither its start nor the end of any run reaches 2^32. */
  predicate InReach(rs: seq<Run>, lba: int) {
    lba < TWO32 && forall k :: 0 <= k < |rs| ==> rs[k].lba + rs[k].piece.count < TWO32
  }

  /** The same with respect to the mapped LBAs. */
  ghost predicate Addressable(idx: Index, lba: int, nlbas: nat) {
    lba < TWO32 && forall l :: lba <= l < lba + nlbas && l in idx ==> l + 1 < TWO32
  }

  lemma SumMod(a: int, b: int)
    ensures (a % TWO32 + b % TWO32) % TWO32 == (a + b) % TWO32
  {
  }

  /** One more run does not change what is shown before it. */
  lemma ShownBefore(rs: seq<Run>, lo: int, hi: int, disk: Disk, blkSize: nat, k: nat, l: int)
    requires Ordered(rs, lo, hi) && AllOnDisk(rs, disk) && k < |rs|
    ensures AllOnDisk(rs[..k], disk) && AllOnDisk(rs[..k + 1], disk)
    ensures l < rs[k].lba ==> ShownAt(rs[..k + 1], disk, blkSize, l) == ShownAt(rs[..k], disk, blkSize, l)
    ensures InRun(rs[k], l) ==> ShownAt(rs[..k + 1], disk, blkSize, l) == disk[Nth(rs[k].piece, l - rs[k].lba)]
  {
    assert rs[..k + 1][..k] == rs[..k];
  }

  /** From the end of the runs on there is only zeros. */
  lemma ShownBeyond(rs: seq<Run>, lo: int, hi: int, disk: Disk, blkSize: nat, k: nat, l: int)
    requires Ordered(rs, lo, hi) && AllOnDisk(rs, disk) && k <= |rs| && Edge(rs, lo, k) <= l
    ensures AllOnDisk(rs[..k], disk) && ShownAt(rs[..k], disk, blkSize, l) == Zeros(blkSize)
  {
    forall j | 0 <= j < k ensures !InRun(rs[..k][j], l) {
      assert j < k - 1 ==> rs[j].lba + rs[j].piece.count <= rs[k - 1].lba;
    }
    ShownOutside(rs[..k], disk, blkSize, l);
  }

  method FillHole(buf: array<Data>, at: nat, n: nat, blkSize: nat, ghost rs: seq<Run>, ghost disk: Disk, ghost lba: int)
    requires at + n <= buf.Length && AllOnDisk(rs, disk)
    requires Filled(buf[..], rs, disk, blkSize, lba, at)
    requires forall l :: lba + at <= l < lba + at + n ==> ShownAt(rs, disk, blkSize, l) == Zeros(blkSize)
    modifies buf
    ensures Filled(buf[..], rs, disk, blkSize, lba, at + n)
  {
    for i := at to at + n
      invariant Filled(buf[..], rs, disk, blkSize, lba, i)
    {
      buf[i] := Zeros(blkSize);
    }
  }

  method FillRun(buf: array<Data>, at: nat, r: Run, blkSize: nat, ghost rs: seq<Run>, disk: Disk, ghost lba: int)
    requires Fits(r.piece) && at + r.piece.count <= buf.Length && AllOnDisk(rs, disk) && OnDisk(r, disk)
    requires r.lba == lba + at && Filled(buf[..], rs, disk, blkSize, lba, at)
    requires forall l :: InRun(r, l) ==> ShownAt(rs, disk, blkSize, l) == disk[Nth(r.piece, l - r.lba)]
    modifies buf
    ensures Filled(buf[..], rs, disk, blkSize, lba, at + r.piece.count)
  {
    for j := 0 to r.piece.count
      invariant Filled(buf[..], rs, disk, blkSize, lba, at + j)
    {
      assert InRun(r, r.lba + j) && r.lba + j - r.lba == j;
      buf[at + j] := disk[Nth(r.piece, j)];
    }
  }

  /** The hole before run `k`, as the code computes it. */
  lemma NextHole(rs: seq<Run>, lo: int, hi: int, k: nat, prevLba: int, prevN: int)
    requires 0 <= lo <= hi < TWO64 && Ordered(rs, lo, hi) && k < |rs|
    requires (prevLba + prevN) % TWO32 == Edge(rs, lo, k) % TWO32
    ensures Edge(rs, lo, k) <= rs[k].lba
    ensures Edge(rs, lo, k) < TWO32 ==> Hole(prevLba, prevN, rs[k].lba) == rs[k].lba - Edge(rs, lo, k)
    ensures Edge(rs, lo, k) >= TWO32 ==> Hole(prevLba, prevN, rs[k].lba) >= TWO32
  {
    assert k > 0 ==> rs[k - 1].lba + rs[k - 1].piece.count <= rs[k].lba;
    HoleExact(prevLba, prevN, Edge(rs, lo, k), rs[k].lba);
  }

  /** What the runs up to run `k` show is what the runs before it show, then zeros, then the run. */
  lemma NextShown(rs: seq<Run>, prev: seq<Run>, next: seq<Run>, lo: int, hi: int, disk: Disk, blkSize: nat, k: nat)
    requires Ordered(rs, lo, hi) && AllOnDisk(rs, disk) && k < |rs| && prev == rs[..k] && next == rs[..k + 1]
    requires Edge(rs, lo, k) <= rs[k].lba
    ensures AllOnDisk(prev, disk) && AllOnDisk(next, disk)
    ensures forall l :: l < Edge(rs, lo, k) ==> ShownAt(next, disk, blkSize, l) == ShownAt(prev, disk, blkSize, l)
    ensures forall l :: Edge(rs, lo, k) <= l < rs[k].lba ==> ShownAt(next, disk, blkSize, l) == Zeros(blkSize)
    ensures forall l :: InRun(rs[k], l) ==> ShownAt(next, disk, blkSize, l) == disk[Nth(rs[k].piece, l - rs[k].lba)]
  {
    forall l
      ensures AllOnDisk(prev, disk) && AllOnDisk(next, disk)
      ensures l < Edge(rs, lo, k) ==> ShownAt(next, disk, blkSize, l) == ShownAt(prev, disk, blkSize, l)
      ensures Edge(rs, lo, k) <= l < rs[k].lba ==> ShownAt(next, disk, blkSize, l) == Zeros(blkSize)
      ensures InRun(rs[k], l) ==> ShownAt(next, disk, blkSize, l) == disk[Nth(rs[k].piece, l - rs[k].lba)]
    {
      ShownBefore(rs, lo, hi, disk, blkSize, k, l);
      if Edge(rs, lo, k) <= l {
        ShownBeyond(rs, lo, hi, disk, blkSize, k, l);
      }
    }
  }

  /** The fill of one run and of the hole before it. */
  method FillOne(rs: seq<Run>, k: nat, lba: int, disk: Disk, blkSize: nat, buf: array<Data>,
                 at: nat, prevLba: int, prevN: int)
    returns (pos: nat, inBounds: bool)
    requires 0 <= lba && lba + buf.Length < TWO64 && buf.Length < TWO32 && at <= buf.Length
    requires Ordered(rs, lba, lba + buf.Length) && AllOnDisk(rs, disk) && k < |rs|
    requires lba + at == Edge(rs, lba, k) && (prevLba + prevN) % TWO32 == Edge(rs, lba, k) % TWO32
    requires AllOnDisk(rs[..k], disk) && Filled(buf[..], rs[..k], disk, blkSize, lba, at)
    modifies buf
    ensures inBounds <==> Edge(rs, lba, k) < TWO32
    ensures inBounds ==>
              && pos <= buf.Length && lba + pos == Edge(rs, lba, k + 1)
              && AllOnDisk(rs[..k + 1], disk) && Filled(buf[..], rs[..k + 1], disk, blkSize, lba, pos)
  {
    var r := rs[k];
    var hole := Hole(prevLba, prevN, r.lba);
    NextHole(rs, lba, lba + buf.Length, k, prevLba, prevN);
    if at + hole > buf.Length {
      return at, false;
    }
    ghost var next := rs[..k + 1];
    NextShown(rs, rs[..k], next, lba, lba + buf.Length, disk, blkSize, k);
    FillHole(buf, at, hole, blkSize, next, disk, lba);
    FillRun(buf, at + hole, r, blkSize, next, disk, lba);
    return at + hole + r.piece.count, true;
  }

  /** The hole after the last run. */
  method FillTail(ghost rs: seq<Run>, lba: int, ghost disk: Disk, blkSize: nat, buf: array<Data>,
                  at: nat, prevLba: int, prevN: int)
    returns (inBounds: bool)
    requires 0 <= lba && lba + buf.Length < TWO64 && 1 <= buf.Length < TWO32 && at <= buf.Length
    requires Ordered(rs, lba, lba + buf.Length) && AllOnDisk(rs, disk)
    requires lba + at == Edge(rs, lba, |rs|) && (prevLba + prevN) % TWO32 == Edge(rs, lba, |rs|) % TWO32
    requires Filled(buf[..], rs, disk, blkSize, lba, at)
    modifies buf
    ensures inBounds <==> Edge(rs, lba, |rs|) < TWO32
    ensures inBounds ==> Filled(buf[..], rs, disk, blkSize, lba, buf.Length)
  {
    var hole := TailHole(prevLba, prevN, lba + buf.Length);
    HoleExact(prevLba, prevN, lba + at, lba + buf.Length);
    if at + hole > buf.Length {
      return false;
    }
    assert rs[..|rs|] == rs;
    forall l | lba + at <= l < lba + at + hole
      ensures ShownAt(rs, disk, blkSize, l) == Zeros(blkSize)
    {
      ShownBeyond(rs, lba, lba + buf.Length, disk, blkSize, |rs|, l);
    }
    FillHole(buf, at, hole, blkSize, rs, disk, lba);
    return true;
  }

  /** Fill the buffer run by run.  The cursor behind the buffer pointer is kept in 32 bits; the fill stays in the
      buffer if and only if the range and the runs are in reach, and then the buffer holds what the runs show. */
  method SubmitReads(rs: seq<Run>, lba: int, disk: Disk, blkSize: nat, buf: array<Data>) returns (inBounds: bool)
    requires 0 <= lba && lba + buf.Length < TWO64 && 1 <= buf.Length < TWO32
    requires Ordered(rs, lba, lba + buf.Length) && AllOnDisk(rs, disk)
    modifies buf
    ensures inBounds <==> InReach(rs, lba)
    ensures inBounds ==> Filled(buf[..], rs, disk, blkSize, lba, buf.Length)
  {
    var pos := 0;
    var prevLba, prevN := lba % TWO32, 0;
    for k := 0 to |rs|
      invariant 0 <= pos <= buf.Length && lba + pos == Edge(rs, lba, k)
      invariant (prevLba + prevN) % TWO32 == Edge(rs, lba, k) % TWO32
      invariant AllOnDisk(rs[..k], disk) && Filled(buf[..], rs[..k], disk, blkSize, lba, pos)
      invariant k > 0 ==> lba < TWO32
      invariant forall j :: 0 <= j < k - 1 ==> rs[j].lba + rs[j].piece.count < TWO32
    {
      pos, inBounds := FillOne(rs, k, lba, disk, blkSize, buf, pos, prevLba, prevN);
      if !inBounds {
        return;
      }
      SumMod(rs[k].lba, rs[k].piece.count);
      prevLba, prevN := rs[k].lba % TWO32, rs[k].piece.count % TWO32;
    }
    assert rs[..|rs|] == rs;
    inBounds := FillTail(rs, lba, disk, blkSize, buf, pos, prevLba, prevN);
  }

  // ---------- what a read shows ----------

  /** Every indexed block has contents. */
  ghost predicate Backed(idx: Index, disk: Disk) {
    forall l :: l in idx ==> idx[l].blk in disk
  }

  /** What a reader should see at an LBA. */
  ghost function View(idx: Index, disk: Disk, blkSize: nat, l: int): Data
    requires Backed(idx, disk)
  {
    if l in idx then disk[idx[l].blk] else Zeros(blkSize)
  }

  /** An LBA in the part of a run that its 16-bit count leaves out. */
  ghost predicate CutOff(rs: seq<Run>, l: int) {
    exists k :: 0 <= k < |rs| && InRun(rs[k], l) && !InRun(Narrow(rs[k]), l)
  }

  /** What a read brings to an LBA: the block the index has for it, unless a run cuts it off. */
  ghost function Seen(rs: seq<Run>, idx: Index, disk: Disk, blkSize: nat, l: int): Data
    requires Backed(idx, disk)
  {
    if CutOff(rs, l) then Zeros(blkSize) else View(idx, disk, blkSize, l)
  }

  /** The narrowed runs can be submitted. */
  lemma NarrowedAreOrdered(rs: seq<Run>, idx: Index, disk: Disk, lo: int, hi: int)
    requires Backed(idx, disk) && Partition(rs, idx, lo, hi)
    ensures Ordered(NarrowAll(rs), lo, hi) && AllOnDisk(NarrowAll(rs), disk)
  {
    var ns := NarrowAll(rs);
    forall k | 0 <= k < |ns|
      ensures Fits(ns[k].piece) && ns[k].lba == rs[k].lba && ns[k].piece.count <= rs[k].piece.count
    {
      assert ns[k] == Narrow(rs[k]);
    }
    forall k | 0 <= k < |ns|
      ensures OnDisk(ns[k], disk)
    {
      forall j | 0 <= j < ns[k].piece.count
        ensures Nth(ns[k].piece, j) in disk
      {
        assert InRun(rs[k], rs[k].lba + j) && Serves(rs[k], idx, rs[k].lba + j);
      }
    }
  }

  /** And they show what a read sees. */
  lemma NarrowedShow(rs: seq<Run>, idx: Index, disk: Disk, blkSize: nat, lo: int, hi: int, l: int)
    requires Backed(idx, disk) && Partition(rs, idx, lo, hi) && lo <= l < hi
    requires Ordered(NarrowAll(rs), lo, hi) && AllOnDisk(NarrowAll(rs), disk)
    ensures ShownAt(NarrowAll(rs), disk, blkSize, l) == Seen(rs, idx, disk, blkSize, l)
  {
    var ns := NarrowAll(rs);
    if k :| 0 <= k < |ns| && InRun(ns[k], l) {
      ShownInRun(ns, lo, hi, disk, blkSize, k, l);
      assert ns[k] == Narrow(rs[k]) && InRun(rs[k], l) && Serves(rs[k], idx, l);
      OneRunOnly(rs, lo, hi, k, l);
    } else {
      ShownOutside(ns, disk, blkSize, l);
      if l in idx {
        assert SomeRun(rs, l);
        var k :| 0 <= k < |rs| && InRun(rs[k], l);
        assert ns[k] == Narrow(rs[k]);
      }
    }
  }

  lemma OneRunOnly(rs: seq<Run>, lo: int, hi: int, k: nat, l: int)
    requires Ordered(rs, lo, hi) && k < |rs| && InRun(rs[k], l) && InRun(Narrow(rs[k]), l)
    ensures !CutOff(rs, l)
  {
  }

  /** Nothing is cut off if and only if no run has 2^16 blocks or more. */
  lemma CutOffExact(rs: seq<Run>, idx: Index, lo: int, hi: int)
    requires Partition(rs, idx, lo, hi)
    ensures (exists l :: CutOff(rs, l)) <==> LongRun(idx, lo, hi)
  {
    LongRunExact(rs, idx, lo, hi);
    if k :| 0 <= k < |rs| && rs[k].piece.count >= TWO16 {
      var l := rs[k].lba + rs[k].piece.count - 1;
      assert InRun(rs[k], l) && !InRun(Narrow(rs[k]), l);
      assert CutOff(rs, l);
    }
  }

  /** Without long runs, being in reach is a matter of the mapped LBAs. */
  lemma ReachExact(rs: seq<Run>, idx: Index, lba: int, nlbas: nat)
    requires Partition(rs, idx, lba, lba + nlbas) && !LongRun(idx, lba, lba + nlbas)
    ensures InReach(NarrowAll(rs), lba) <==> Addressable(idx, lba, nlbas)
  {
    var ns := NarrowAll(rs);
    LongRunExact(rs, idx, lba, lba + nlbas);
    forall k | 0 <= k < |rs|
      ensures ns[k] == rs[k]
    {
      assert ns[k] == Narrow(rs[k]);
    }
    if Addressable(idx, lba, nlbas) {
      forall k | 0 <= k < |rs|
        ensures ns[k].lba + ns[k].piece.count < TWO32
      {
        var l := rs[k].lba + rs[k].piece.count - 1;
        assert InRun(rs[k], l) && Serves(rs[k], idx, l);
      }
    }
    if InReach(ns, lba) {
      forall l | lba <= l < lba + nlbas && l in idx
        ensures l + 1 < TWO32
      {
        assert SomeRun(rs, l);
        var k :| 0 <= k < |rs| && InRun(rs[k], l);
        assert ns[k].lba + ns[k].piece.count < TWO32;
      }
    }
  }

  /** The first `n` blocks of a buffer show what a reader of `lba` on should see. */
  ghost predicate Shows(bs: seq<Data>, idx: Index, disk: Disk, blkSize: nat, lba: int, n: nat)
    requires n <= |bs| && Backed(idx, disk)
  {
    forall i :: 0 <= i < n ==> bs[i] == View(idx, disk, blkSize, lba + i)
  }

  // ---------- walking the entries ----------

  /** Entries of the query before position `c` lie below `edge`, the others at or above it. */
  ghost predicate Reached(idx: Index, lo: int, hi: int, c: nat, edge: int) {
    var kvs := Query(idx, lo, hi);
    && c <= |kvs|
    && (forall k :: 0 <= k < c ==> kvs[k].0 < edge)
    && (forall k :: c <= k < |kvs| ==> kvs[k].0 >= edge)
  }

  lemma GapIsUnmapped(idx: Index, lo: int, hi: int, c: nat, edge: int, l: int)
    requires Reached(idx, lo, hi, c, edge) && c < |Query(idx, lo, hi)|
    requires lo <= edge <= l < Query(idx, lo, hi)[c].0
    ensures l !in idx
  {
    QueryAt(idx, lo, hi, c);
    if l in idx {
      var m := QueryComplete(idx, lo, hi, l);
      if c < m {
        QuerySorted(idx, lo, hi, c, m);
      }
    }
  }

  lemma ReachedAfter(idx: Index, lo: int, hi: int, d: nat)
    requires 0 < d <= |Query(idx, lo, hi)|
    ensures Reached(idx, lo, hi, d, Query(idx, lo, hi)[d - 1].0 + 1)
  {
    var kvs := Query(idx, lo, hi);
    forall m | 0 <= m < d
      ensures kvs[m].0 < kvs[d - 1].0 + 1
    {
      if m < d - 1 {
        QuerySorted(idx, lo, hi, m, d - 1);
      }
    }
    forall m | d <= m < |kvs|
      ensures kvs[m].0 >= kvs[d - 1].0 + 1
    {
      QuerySorted(idx, lo, hi, d - 1, m);
    }
  }

  lemma ReachedAt(idx: Index, lo: int, hi: int, d: nat)
    requires d < |Query(idx, lo, hi)|
    ensures Reached(idx, lo, hi, d, Query(idx, lo, hi)[d].0)
  {
    var kvs := Query(idx, lo, hi);
    forall m | 0 <= m < |kvs| && m != d
      ensures if m < d then kvs[m].0 < kvs[d].0 else kvs[m].0 > kvs[d].0
    {
      if m < d {
        QuerySorted(idx, lo, hi, m, d);
      } else {
        QuerySorted(idx, lo, hi, d, m);
      }
    }
  }

  lemma ReachedStart(idx: Index, lo: int, hi: int)
    ensures Reached(idx, lo, hi, 0, lo)
  {
    forall m | 0 <= m < |Query(idx, lo, hi)|
      ensures Query(idx, lo, hi)[m].0 >= lo
    {
      QueryAt(idx, lo, hi, m);
    }
  }

  lemma AllReached(idx: Index, lo: int, hi: int, edge: int)
    requires Reached(idx, lo, hi, |Query(idx, lo, hi)|, edge)
    ensures forall l :: edge <= l < hi && lo <= l ==> l !in idx
  {
    forall l | edge <= l < hi && lo <= l
      ensures l !in idx
    {
      if l in idx {
        var m := QueryComplete(idx, lo, hi, l);
      }
    }
  }

  // ---------- checksums ----------

  /** Walk buffer and entries together, skipping the holes, and compare every checksum. */
  method VerifyChecksums(kvs: seq<Entry>, lba: int, nlbas: nat, buf: array<Data>, crc: Data -> Csum, ghost idx: Index)
    returns (ok: bool)
    requires kvs == Query(idx, lba, lba + nlbas) && buf.Length == nlbas
    ensures ok <==> forall l :: lba <= l < lba + nlbas && l in idx ==> crc(buf[l - lba]) == idx[l].csum
  {
    var cur, pos, i := lba, 0, 0;
    ReachedStart(idx, lba, lba + nlbas);
    while i < |kvs|
      invariant 0 <= i <= |kvs| && pos == cur - lba
      invariant lba <= cur <= lba + nlbas && (i < |kvs| ==> cur <= kvs[i].0)
      invariant Reached(idx, lba, lba + nlbas, i, cur)
      invariant forall l :: lba <= l < cur && l in idx ==> crc(buf[l - lba]) == idx[l].csum
      decreases |kvs| - i, if i < |kvs| then kvs[i].0 - cur else 0
    {
      QueryAt(idx, lba, lba + nlbas, i);
      var (key, value) := kvs[i];
      if cur != key {
        forall l | cur <= l < key
          ensures l !in idx
        {
          GapIsUnmapped(idx, lba, lba + nlbas, i, cur, l);
        }
        ReachedAt(idx, lba, lba + nlbas, i);
        pos := pos + (key - cur);
        cur := key;
        continue;
      }
      if crc(buf[pos]) != value.csum {
        return false;
      }
      ReachedAfter(idx, lba, lba + nlbas, i + 1);
      pos, i, cur := pos + 1, i + 1, cur + 1;
    }
    AllReached(idx, lba, lba + nlbas, cur);
    return true;
  }
}
