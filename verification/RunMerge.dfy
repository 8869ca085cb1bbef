/** From an index query to the runs of blocks that a read asks for. */
module RunMerge {
  import opened VolumeTypes
  import opened FixedIndex
  import opened Widths

  type Entry = (int, Value)

  /** `piece` is to be read to the buffer position of `lba`. */
  datatype Run = Run(lba: int, piece: Piece)

  // ---------- the query ----------

  lemma {:induction false} QueryAt(idx: Index, lo: int, hi: int, k: nat)
    requires k < |Query(idx, lo, hi)|
    ensures var kv := Query(idx, lo, hi)[k]; lo <= kv.0 < hi && kv.0 in idx && kv.1 == idx[kv.0]
    decreases hi - lo
  {
    if k < |Query(idx, lo, hi - 1)| {
      QueryAt(idx, lo, hi - 1, k);
    }
  }

  lemma {:induction false} QuerySorted(idx: Index, lo: int, hi: int, j: nat, k: nat)
    requires j < k < |Query(idx, lo, hi)|
    ensures Query(idx, lo, hi)[j].0 < Query(idx, lo, hi)[k].0
    decreases hi - lo
  {
    if k < |Query(idx, lo, hi - 1)| {
      QuerySorted(idx, lo, hi - 1, j, k);
    } else {
      QueryAt(idx, lo, hi - 1, j);
    }
  }

  lemma {:induction false} QueryComplete(idx: Index, lo: int, hi: int, l: int) returns (k: nat)
    requires lo <= l < hi && l in idx
    ensures k < |Query(idx, lo, hi)| && Query(idx, lo, hi)[k].0 == l
    decreases hi - lo
  {
    if l == hi - 1 {
      k := |Query(idx, lo, hi - 1)|;
    } else {
      k := QueryComplete(idx, lo, hi - 1, l);
    }
  }

  // ---------- merging into runs ----------

  predicate Follows(a: Entry, b: Entry) {
    && b.0 == a.0 + 1
    && b.1.blk.num == a.1.blk.num + 1
    && b.1.blk.chunk == a.1.blk.chunk
  }

  /** Where each entry's block is to be read to. */
  function Located(kvs: seq<Entry>): (ls: seq<(int, Blk)>)
    ensures |ls| == |kvs| && forall k :: 0 <= k < |kvs| ==> ls[k] == (kvs[k].0, kvs[k].1.blk)
  {
    seq(|kvs|, k requires 0 <= k < |kvs| => (kvs[k].0, kvs[k].1.blk))
  }

  function Expand(r: Run): (ls: seq<(int, Blk)>)
    requires Fits(r.piece)
    ensures |ls| == r.piece.count && forall k :: 0 <= k < |ls| ==> ls[k] == (r.lba + k, Nth(r.piece, k))
  {
    seq(r.piece.count, k requires 0 <= k < r.piece.count => (r.lba + k, Nth(r.piece, k)))
  }

  predicate RunsFit(rs: seq<Run>) {
    forall j :: 0 <= j < |rs| ==> Fits(rs[j].piece)
  }

  function ExpandAll(rs: seq<Run>): seq<(int, Blk)>
    requires RunsFit(rs)
    decreases |rs|
  {
    if rs == [] then [] else ExpandAll(rs[..|rs| - 1]) + Expand(rs[|rs| - 1])
  }

  /** The second run continues the first on disk as well as in the address space. */
  predicate Adjoins(a: Run, b: Run) {
    && b.lba == a.lba + a.piece.count
    && b.piece.num == a.piece.num + a.piece.count
    && b.piece.chunk == a.piece.chunk
  }

  predicate Maximal(rs: seq<Run>) {
    forall j :: 0 < j < |rs| ==> !Adjoins(rs[j - 1], rs[j])
  }

  /** The run ends with this entry. */
  ghost predicate EndsWith(r: Run, kv: Entry) {
    && r.lba + r.piece.count == kv.0 + 1
    && r.piece.num + r.piece.count == kv.1.blk.num + 1
    && r.piece.chunk == kv.1.blk.chunk
  }

  function RunOf(kvs: seq<Entry>, from: nat, count: nat): Run
    requires from < |kvs|
  {
    Run(kvs[from].0, Piece(kvs[from].1.blk.chunk, kvs[from].1.blk.num, count))
  }

  function Longer(r: Run): Run {
    r.(piece := r.piece.(count := r.piece.count + 1))
  }

  /** The runs of the entries: each run as long as the entries follow one another. */
  function MaximalRuns(kvs: seq<Entry>): seq<Run>
    decreases |kvs|
  {
    if kvs == [] then []
    else
      var n := |kvs| - 1;
      var rs := MaximalRuns(kvs[..n]);
      if n > 0 && rs != [] && Follows(kvs[n - 1], kvs[n]) then rs[..|rs| - 1] + [Longer(rs[|rs| - 1])]
      else rs + [RunOf(kvs, n, 1)]
  }

  /** No entry is lost, added or reordered, and no two neighbouring runs could have been one. */
  ghost predicate Decomposes(rs: seq<Run>, kvs: seq<Entry>) {
    && RunsFit(rs) && (forall j :: 0 <= j < |rs| ==> rs[j].piece.count > 0)
    && ExpandAll(rs) == Located(kvs) && Maximal(rs)
    && (kvs == [] <==> rs == [])
    && (kvs != [] ==> EndsWith(rs[|rs| - 1], kvs[|kvs| - 1]))
  }

  lemma ExpandMore(rs: seq<Run>, r: Run)
    requires RunsFit(rs) && Fits(r.piece)
    ensures RunsFit(rs + [r]) && ExpandAll(rs + [r]) == ExpandAll(rs) + Expand(r)
  {
    assert (rs + [r])[..|rs|] == rs;
  }

  lemma LocatedMore(kvs: seq<Entry>)
    requires kvs != []
    ensures var n := |kvs| - 1; Located(kvs) == Located(kvs[..n]) + [(kvs[n].0, kvs[n].1.blk)]
  {
  }

  lemma LongerMaximal(init: seq<Run>, last: Run)
    requires Maximal(init + [last])
    ensures Maximal(init + [Longer(last)])
  {
    var rs, grown := init + [last], init + [Longer(last)];
    forall j | 0 < j < |grown|
      ensures !Adjoins(grown[j - 1], grown[j])
    {
      assert !Adjoins(rs[j - 1], rs[j]);
    }
  }

  lemma LongerExpands(init: seq<Run>, last: Run, kv: Entry)
    requires RunsFit(init) && Fits(last.piece) && Fits(Longer(last).piece)
    requires kv.0 == last.lba + last.piece.count && kv.1.blk == Nth(Longer(last).piece, last.piece.count)
    ensures RunsFit(init + [last]) && RunsFit(init + [Longer(last)])
    ensures ExpandAll(init + [Longer(last)]) == ExpandAll(init + [last]) + [(kv.0, kv.1.blk)]
  {
    assert Expand(Longer(last)) == Expand(last) + [(kv.0, kv.1.blk)];
    ExpandMore(init, last);
    ExpandMore(init, Longer(last));
  }

  /** An entry that follows the end of the last run makes that run longer. */
  lemma {:induction false} GrowLast(rs: seq<Run>, kvs: seq<Entry>)
    requires |kvs| > 1 && Decomposes(rs, kvs[..|kvs| - 1]) && Follows(kvs[|kvs| - 2], kvs[|kvs| - 1])
    ensures Decomposes(rs[..|rs| - 1] + [Longer(rs[|rs| - 1])], kvs)
  {
    var n, m := |kvs| - 1, |rs| - 1;
    var init, last := rs[..m], rs[m];
    assert kvs[..n][n - 1] == kvs[n - 1];
    assert rs == init + [last];
    LongerMaximal(init, last);
    LongerExpands(init, last, kvs[n]);
    LocatedMore(kvs);
  }

  lemma MaximalMore(rs: seq<Run>, r: Run)
    requires Maximal(rs) && (rs != [] ==> !Adjoins(rs[|rs| - 1], r))
    ensures Maximal(rs + [r])
  {
  }

  /** The run of an entry that does not follow the last run does not adjoin it. */
  lemma NotAdjoining(r: Run, kvs: seq<Entry>, n: nat)
    requires 0 < n < |kvs| && EndsWith(r, kvs[n - 1]) && !Follows(kvs[n - 1], kvs[n])
    ensures !Adjoins(r, RunOf(kvs, n, 1))
  {
  }

  lemma {:induction false} StartExpands(rs: seq<Run>, kvs: seq<Entry>, n: nat)
    requires RunsFit(rs) && n + 1 == |kvs| && ExpandAll(rs) == Located(kvs[..n])
    ensures RunsFit(rs + [RunOf(kvs, n, 1)]) && ExpandAll(rs + [RunOf(kvs, n, 1)]) == Located(kvs)
  {
    assert Expand(RunOf(kvs, n, 1)) == [(kvs[n].0, kvs[n].1.blk)];
    ExpandMore(rs, RunOf(kvs, n, 1));
    LocatedMore(kvs);
  }

  lemma {:induction false} DecomposesMore(rs: seq<Run>, r: Run, kvs: seq<Entry>)
    requires RunsFit(rs + [r]) && ExpandAll(rs + [r]) == Located(kvs) && Maximal(rs + [r])
    requires r.piece.count > 0 && forall j :: 0 <= j < |rs| ==> rs[j].piece.count > 0
    requires kvs != [] && EndsWith(r, kvs[|kvs| - 1])
    ensures Decomposes(rs + [r], kvs)
  {
  }

  /** Any other entry starts a run of its own. */
  lemma {:induction false} StartNext(rs: seq<Run>, kvs: seq<Entry>, n: nat)
    requires n + 1 == |kvs| && RunsFit(rs) && ExpandAll(rs) == Located(kvs[..n]) && Maximal(rs)
    requires forall j :: 0 <= j < |rs| ==> rs[j].piece.count > 0
    requires if n == 0 then rs == [] else rs != [] && EndsWith(rs[|rs| - 1], kvs[n - 1]) && !Follows(kvs[n - 1], kvs[n])
    ensures Decomposes(rs + [RunOf(kvs, n, 1)], kvs)
  {
    StartExpands(rs, kvs, n);
    if n > 0 {
      NotAdjoining(rs[|rs| - 1], kvs, n);
    }
    MaximalMore(rs, RunOf(kvs, n, 1));
    DecomposesMore(rs, RunOf(kvs, n, 1), kvs);
  }

  lemma {:induction false} RunsDecompose(kvs: seq<Entry>)
    ensures Decomposes(MaximalRuns(kvs), kvs)
    decreases |kvs|
  {
    if kvs != [] {
      var n := |kvs| - 1;
      var rs := MaximalRuns(kvs[..n]);
      RunsDecompose(kvs[..n]);
      if n > 0 && Follows(kvs[n - 1], kvs[n]) {
        GrowLast(rs, kvs);
      } else {
        assert n > 0 ==> kvs[..n][n - 1] == kvs[n - 1];
        StartNext(rs, kvs, n);
      }
    }
  }

  /** A run as a block id can express it: with 16 bits of block count. */
  function Narrow(r: Run): Run {
    r.(piece := r.piece.(count := r.piece.count % TWO16))
  }

  function NarrowAll(rs: seq<Run>): (ns: seq<Run>)
    ensures |ns| == |rs| && forall k :: 0 <= k < |rs| ==> ns[k] == Narrow(rs[k])
  {
    seq(|rs|, k requires 0 <= k < |rs| => Narrow(rs[k]))
  }

  lemma NarrowMore(rs: seq<Run>, r: Run)
    ensures NarrowAll(rs + [r]) == NarrowAll(rs) + [Narrow(r)]
  {
  }

  /** The merge before entry `i`: what is emitted and the run that is still growing from `start`. */
  ghost predicate Growing(kvs: seq<Entry>, emitted: seq<Run>, start: nat, i: nat)
    requires start <= i < |kvs|
  {
    if i == 0 then start == 0 && emitted == []
    else start < i && MaximalRuns(kvs[..i]) == emitted + [RunOf(kvs, start, i - start)]
  }

  lemma GrowOne(kvs: seq<Entry>, emitted: seq<Run>, start: nat, i: nat)
    requires start <= i < |kvs| && Growing(kvs, emitted, start, i)
    requires i == 0 || Follows(kvs[i - 1], kvs[i])
    ensures MaximalRuns(kvs[..i + 1]) == emitted + [RunOf(kvs, start, i + 1 - start)]
  {
    assert kvs[..i + 1][..i] == kvs[..i];
    if i > 0 {
      var rs := MaximalRuns(kvs[..i]);
      assert rs[..|rs| - 1] == emitted;
    } else {
      assert MaximalRuns(kvs[..1]) == [] + [RunOf(kvs[..1], 0, 1)];
    }
  }

  lemma CloseOne(kvs: seq<Entry>, emitted: seq<Run>, start: nat, i: nat)
    requires start < i < |kvs| && Growing(kvs, emitted, start, i)
    requires !Follows(kvs[i - 1], kvs[i])
    ensures MaximalRuns(kvs[..i + 1]) == (emitted + [RunOf(kvs, start, i - start)]) + [RunOf(kvs, i, 1)]
  {
    assert kvs[..i + 1][..i] == kvs[..i];
  }

  /** Merge neighbouring entries into runs, one pass with a trailing start index; each run goes into a block id. */
  method Coalesce(kvs: seq<Entry>) returns (runs: seq<Run>)
    ensures runs == NarrowAll(MaximalRuns(kvs))
    ensures |runs| == |MaximalRuns(kvs)|
    ensures forall k :: 0 <= k < |runs| ==>
              var full := MaximalRuns(kvs)[k];
              runs[k] == full.(piece := full.piece.(count := full.piece.count % 0x1_0000))
  {
    runs := [];
    ghost var emitted: seq<Run> := [];
    var i, start := 0, 0;
    while i < |kvs|
      invariant 0 <= start <= i <= |kvs| && runs == NarrowAll(emitted)
      invariant i < |kvs| ==> Growing(kvs, emitted, start, i)
      invariant i == |kvs| ==> emitted == MaximalRuns(kvs)
    {
      var contiguous := i == 0 || Follows(kvs[i - 1], kvs[i]);
      if contiguous {
        GrowOne(kvs, emitted, start, i);
      } else {
        CloseOne(kvs, emitted, start, i);
      }
      assert i + 1 == |kvs| ==> kvs[..i + 1] == kvs;
      if contiguous && i < |kvs| - 1 {
        i := i + 1;
        continue;
      }
      var count := if contiguous then i - start + 1 else i - start;
      NarrowMore(emitted, RunOf(kvs, start, count));
      emitted := emitted + [RunOf(kvs, start, count)];
      runs := runs + [RunOf(kvs, start, count % TWO16)];
      start := i;
      if !contiguous && i == |kvs| - 1 {
        NarrowMore(emitted, RunOf(kvs, i, 1));
        emitted := emitted + [RunOf(kvs, i, 1)];
        runs := runs + [RunOf(kvs, i, 1)];
      }
      i := i + 1;
    }
  }

  /** Merging is lossless if and only if every run is shorter than 2^16 blocks. */
  lemma CoalesceExact(kvs: seq<Entry>)
    ensures NarrowAll(MaximalRuns(kvs)) == MaximalRuns(kvs)
            <==> forall k :: 0 <= k < |MaximalRuns(kvs)| ==> MaximalRuns(kvs)[k].piece.count < TWO16
  {
    var rs := MaximalRuns(kvs);
    forall k | 0 <= k < |rs| ensures NarrowAll(rs)[k] == rs[k] <==> rs[k].piece.count < TWO16 {
      assert NarrowAll(rs)[k] == Narrow(rs[k]);
    }
  }

  // ---------- where the entries of a run come from ----------

  /** Where run `k` starts among the entries. */
  ghost function Start(rs: seq<Run>, k: nat): nat
    requires RunsFit(rs) && k <= |rs|
  {
    |ExpandAll(rs[..k])|
  }

  lemma StartNextRun(rs: seq<Run>, k: nat)
    requires RunsFit(rs) && k < |rs|
    ensures Start(rs, k + 1) == Start(rs, k) + rs[k].piece.count
    ensures ExpandAll(rs[..k + 1]) == ExpandAll(rs[..k]) + Expand(rs[k])
  {
    assert rs[..k + 1][..k] == rs[..k];
  }

  lemma {:induction false} ExpandAllPrefix(rs: seq<Run>, k: nat, i: nat)
    requires RunsFit(rs) && k <= |rs| && i < |ExpandAll(rs[..k])|
    ensures i < |ExpandAll(rs)| && ExpandAll(rs)[i] == ExpandAll(rs[..k])[i]
    decreases |rs| - k
  {
    if k == |rs| {
      assert rs[..k] == rs;
    } else {
      StartNextRun(rs, k);
      ExpandAllPrefix(rs, k + 1, i);
    }
  }

  lemma ExpandPick(rs: seq<Run>, k: nat, j: nat)
    requires RunsFit(rs) && k < |rs| && j < rs[k].piece.count
    ensures Start(rs, k) + j < |ExpandAll(rs)|
    ensures ExpandAll(rs)[Start(rs, k) + j] == (rs[k].lba + j, Nth(rs[k].piece, j))
  {
    StartNextRun(rs, k);
    ExpandAllPrefix(rs, k + 1, Start(rs, k) + j);
  }

  /** Each entry lies in some run. */
  lemma {:induction false} RunAt(rs: seq<Run>, n: nat, i: nat) returns (k: nat)
    requires RunsFit(rs) && n <= |rs| && i < Start(rs, n)
    ensures k < n && Start(rs, k) <= i < Start(rs, k + 1)
    decreases n
  {
    StartNextRun(rs, n - 1);
    if i < Start(rs, n - 1) {
      k := RunAt(rs, n - 1, i);
    } else {
      k := n - 1;
    }
  }

  // ---------- the runs against the index ----------

  /** The entries are those of the index in the range, in order. */
  ghost predicate Lists(kvs: seq<Entry>, idx: Index, lo: int, hi: int) {
    && (forall k :: 0 <= k < |kvs| ==> lo <= kvs[k].0 < hi && kvs[k].0 in idx && kvs[k].1 == idx[kvs[k].0])
    && (forall j, k :: 0 <= j < k < |kvs| ==> kvs[j].0 < kvs[k].0)
    && (forall l :: lo <= l < hi && l in idx ==> exists k :: 0 <= k < |kvs| && kvs[k].0 == l)
  }

  lemma QueryLists(idx: Index, lo: int, hi: int)
    ensures Lists(Query(idx, lo, hi), idx, lo, hi)
  {
    var kvs := Query(idx, lo, hi);
    forall k | 0 <= k < |kvs|
      ensures lo <= kvs[k].0 < hi && kvs[k].0 in idx && kvs[k].1 == idx[kvs[k].0]
    {
      QueryAt(idx, lo, hi, k);
    }
    forall j, k | 0 <= j < k < |kvs|
      ensures kvs[j].0 < kvs[k].0
    {
      QuerySorted(idx, lo, hi, j, k);
    }
    forall l | lo <= l < hi && l in idx
      ensures exists k :: 0 <= k < |kvs| && kvs[k].0 == l
    {
      var k := QueryComplete(idx, lo, hi, l);
    }
  }

  predicate InRun(r: Run, l: int) {
    r.lba <= l < r.lba + r.piece.count
  }

  /** The runs follow one another within `lo .. hi`. */
  ghost predicate Ordered(rs: seq<Run>, lo: int, hi: int) {
    && RunsFit(rs)
    && (forall k :: 0 <= k < |rs| ==> lo <= rs[k].lba && rs[k].lba + rs[k].piece.count <= hi)
    && (forall j, k :: 0 <= j < k < |rs| ==> rs[j].lba + rs[j].piece.count <= rs[k].lba)
  }

  /** LBA `l` is mapped to its block of the run. */
  ghost predicate Serves(r: Run, idx: Index, l: int)
    requires Fits(r.piece) && InRun(r, l)
  {
    l in idx && idx[l].blk == Nth(r.piece, l - r.lba)
  }

  ghost predicate SomeRun(rs: seq<Run>, l: int) {
    exists k :: 0 <= k < |rs| && InRun(rs[k], l)
  }

  /** The runs divide the mapped LBAs of the range among them, as few as possible. */
  ghost predicate Partition(rs: seq<Run>, idx: Index, lo: int, hi: int) {
    && Ordered(rs, lo, hi) && Maximal(rs)
    && (forall k :: 0 <= k < |rs| ==> rs[k].piece.count > 0)
    && (forall k, l :: 0 <= k < |rs| && InRun(rs[k], l) ==> Serves(rs[k], idx, l))
    && (forall l :: lo <= l < hi && l in idx ==> SomeRun(rs, l))
  }

  /** The entry behind block `j` of run `k`. */
  lemma {:induction false} RunEntry(rs: seq<Run>, kvs: seq<Entry>, k: nat, j: nat)
    requires RunsFit(rs) && ExpandAll(rs) == Located(kvs) && k < |rs| && j < rs[k].piece.count
    ensures Start(rs, k) + j < |kvs| && kvs[Start(rs, k) + j].0 == rs[k].lba + j
    ensures kvs[Start(rs, k) + j].1.blk == Nth(rs[k].piece, j)
  {
    ExpandPick(rs, k, j);
  }

  lemma EntryServes(r: Run, kvs: seq<Entry>, idx: Index, lo: int, hi: int, m: nat, l: int)
    requires Lists(kvs, idx, lo, hi) && m < |kvs| && kvs[m].0 == l
    requires Fits(r.piece) && InRun(r, l) && kvs[m].1.blk == Nth(r.piece, l - r.lba)
    ensures lo <= l < hi && Serves(r, idx, l)
  {
  }

  lemma {:induction false} RunServes(rs: seq<Run>, kvs: seq<Entry>, idx: Index, lo: int, hi: int, k: nat, l: int)
    requires RunsFit(rs) && ExpandAll(rs) == Located(kvs) && Lists(kvs, idx, lo, hi)
    requires k < |rs| && InRun(rs[k], l)
    ensures lo <= l < hi && Serves(rs[k], idx, l)
  {
    var j := l - rs[k].lba;
    RunEntry(rs, kvs, k, j);
    EntryServes(rs[k], kvs, idx, lo, hi, Start(rs, k) + j, l);
  }

  lemma {:induction false} MappedInRun(rs: seq<Run>, kvs: seq<Entry>, idx: Index, lo: int, hi: int, l: int)
    requires RunsFit(rs) && ExpandAll(rs) == Located(kvs) && Lists(kvs, idx, lo, hi)
    requires lo <= l < hi && l in idx
    ensures SomeRun(rs, l)
  {
    var m :| 0 <= m < |kvs| && kvs[m].0 == l;
    assert rs[..|rs|] == rs;
    var k := RunAt(rs, |rs|, m);
    StartNextRun(rs, k);
    RunEntry(rs, kvs, k, m - Start(rs, k));
  }

  lemma {:induction false} RunsInOrder(rs: seq<Run>, kvs: seq<Entry>, idx: Index, lo: int, hi: int, j: nat, k: nat)
    requires RunsFit(rs) && ExpandAll(rs) == Located(kvs) && Lists(kvs, idx, lo, hi)
    requires j < k < |rs| && rs[j].piece.count > 0 && rs[k].piece.count > 0
    ensures rs[j].lba + rs[j].piece.count <= rs[k].lba
  {
    RunEntry(rs, kvs, j, rs[j].piece.count - 1);
    RunEntry(rs, kvs, k, 0);
    StartNextRun(rs, j);
    StartMonotone(rs, j + 1, k);
  }

  lemma {:induction false} StartMonotone(rs: seq<Run>, j: nat, k: nat)
    requires RunsFit(rs) && j <= k <= |rs|
    ensures Start(rs, j) <= Start(rs, k)
    decreases k - j
  {
    if j < k {
      StartNextRun(rs, j);
      StartMonotone(rs, j + 1, k);
    }
  }

  lemma {:induction false} DecompositionPartitions(rs: seq<Run>, kvs: seq<Entry>, idx: Index, lo: int, hi: int)
    requires Decomposes(rs, kvs) && Lists(kvs, idx, lo, hi)
    ensures Partition(rs, idx, lo, hi)
  {
    forall k, l | 0 <= k < |rs| && InRun(rs[k], l)
      ensures Serves(rs[k], idx, l)
    {
      RunServes(rs, kvs, idx, lo, hi, k, l);
    }
    forall k | 0 <= k < |rs|
      ensures lo <= rs[k].lba && rs[k].lba + rs[k].piece.count <= hi
    {
      RunServes(rs, kvs, idx, lo, hi, k, rs[k].lba);
      RunServes(rs, kvs, idx, lo, hi, k, rs[k].lba + rs[k].piece.count - 1);
    }
    forall j, k | 0 <= j < k < |rs|
      ensures rs[j].lba + rs[j].piece.count <= rs[k].lba
    {
      RunsInOrder(rs, kvs, idx, lo, hi, j, k);
    }
    forall l | lo <= l < hi && l in idx
      ensures SomeRun(rs, l)
    {
      MappedInRun(rs, kvs, idx, lo, hi, l);
    }
  }

  /** The runs of a range query. */
  ghost function RunsIn(idx: Index, lo: int, hi: int): seq<Run> {
    MaximalRuns(Query(idx, lo, hi))
  }

  lemma RunsPartition(idx: Index, lo: int, hi: int)
    ensures Partition(RunsIn(idx, lo, hi), idx, lo, hi)
  {
    QueryLists(idx, lo, hi);
    RunsDecompose(Query(idx, lo, hi));
    DecompositionPartitions(RunsIn(idx, lo, hi), Query(idx, lo, hi), idx, lo, hi);
  }

  // ---------- long runs ----------

  /** The mapping goes on `j` LBAs after `l` with the block that follows. */
  ghost predicate ContinuesAt(idx: Index, l: int, j: nat) {
    && l in idx && l + j in idx
    && idx[l + j].blk.chunk == idx[l].blk.chunk && idx[l + j].blk.num == idx[l].blk.num + j
  }

  /** From LBA `l` on, 2^16 LBAs are mapped to consecutive blocks of one chunk. */
  ghost predicate LongFrom(idx: Index, l: int) {
    forall j: nat :: j < TWO16 ==> ContinuesAt(idx, l, j)
  }

  /** The range has 2^16 LBAs mapped to consecutive blocks. */
  ghost predicate LongRun(idx: Index, lo: int, hi: int) {
    exists l :: lo <= l && l + TWO16 <= hi && LongFrom(idx, l)
  }

  /** Consecutive LBAs mapped to consecutive blocks lie in one run. */
  lemma {:induction false} StaysInRun(rs: seq<Run>, idx: Index, lo: int, hi: int, l: int, j: nat) returns (k: nat)
    requires Partition(rs, idx, lo, hi) && lo <= l && l + j < hi
    requires forall i: nat :: i <= j ==> ContinuesAt(idx, l, i)
    ensures k < |rs| && InRun(rs[k], l) && InRun(rs[k], l + j)
    decreases j
  {
    if j == 0 {
      assert ContinuesAt(idx, l, 0);
      assert SomeRun(rs, l);
      k :| 0 <= k < |rs| && InRun(rs[k], l);
    } else {
      k := StaysInRun(rs, idx, lo, hi, l, j - 1);
      assert ContinuesAt(idx, l, j - 1) && ContinuesAt(idx, l, j);
      RunCannotEnd(rs, idx, lo, hi, k, l + j);
    }
  }

  /** The run that starts where run `k` ends is the next one. */
  lemma NextRun(rs: seq<Run>, idx: Index, lo: int, hi: int, k: nat, k': nat, l: int)
    requires Partition(rs, idx, lo, hi) && k < |rs| && k' < |rs|
    requires rs[k].lba + rs[k].piece.count == l && InRun(rs[k'], l)
    ensures k' == k + 1 && rs[k'].lba == l
  {
    forall m | 0 <= m < k
      ensures rs[m].lba + rs[m].piece.count < l
    {
      assert rs[m].lba + rs[m].piece.count <= rs[k].lba && rs[k].piece.count > 0;
    }
    forall m | k + 1 < m < |rs|
      ensures l < rs[m].lba
    {
      assert l <= rs[k + 1].lba && rs[k + 1].piece.count > 0 && rs[k + 1].lba + rs[k + 1].piece.count <= rs[m].lba;
    }
  }

  /** If it goes on with the next block, the two adjoin. */
  lemma RunsAdjoin(rs: seq<Run>, idx: Index, k: nat, l: int)
    requires RunsFit(rs) && k + 1 < |rs| && rs[k].piece.count > 0 && rs[k].lba + rs[k].piece.count == l == rs[k + 1].lba
    requires rs[k + 1].piece.count > 0 && Serves(rs[k], idx, l - 1) && Serves(rs[k + 1], idx, l)
    requires idx[l].blk.chunk == idx[l - 1].blk.chunk && idx[l].blk.num == idx[l - 1].blk.num + 1
    ensures Adjoins(rs[k], rs[k + 1])
  {
  }

  /** A run does not end where the next LBA is mapped to the next block. */
  lemma RunCannotEnd(rs: seq<Run>, idx: Index, lo: int, hi: int, k: nat, l: int)
    requires Partition(rs, idx, lo, hi) && k < |rs| && lo <= l < hi
    requires l in idx && l - 1 in idx
    requires idx[l].blk.chunk == idx[l - 1].blk.chunk && idx[l].blk.num == idx[l - 1].blk.num + 1
    ensures rs[k].lba + rs[k].piece.count != l
  {
    if rs[k].lba + rs[k].piece.count == l {
      assert SomeRun(rs, l);
      var k' :| 0 <= k' < |rs| && InRun(rs[k'], l);
      NextRun(rs, idx, lo, hi, k, k', l);
      assert InRun(rs[k], l - 1);
      RunsAdjoin(rs, idx, k, l);
    }
  }

  /** Some run has 2^16 blocks or more if and only if the index has such a stretch in the range. */
  lemma LongRunExact(rs: seq<Run>, idx: Index, lo: int, hi: int)
    requires Partition(rs, idx, lo, hi)
    ensures LongRun(idx, lo, hi) <==> exists k :: 0 <= k < |rs| && rs[k].piece.count >= TWO16
  {
    if l :| lo <= l && l + TWO16 <= hi && LongFrom(idx, l) {
      var k := StaysInRun(rs, idx, lo, hi, l, TWO16 - 1);
      assert rs[k].piece.count >= TWO16;
    }
    if k :| 0 <= k < |rs| && rs[k].piece.count >= TWO16 {
      var l := rs[k].lba;
      forall j: nat | j < TWO16 ensures ContinuesAt(idx, l, j) {
        assert InRun(rs[k], l) && Serves(rs[k], idx, l);
        assert InRun(rs[k], l + j) && Serves(rs[k], idx, l + j);
      }
      assert LongFrom(idx, l);
    }
  }
}
