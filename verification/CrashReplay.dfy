/** What a crash leaves of a run of writes: the log of the records of the completed ones.  Replaying it over an
    empty index brings back, at every LBA, the block last put there by a completed write; what failed writes
    had left in the index is gone. */
module CrashReplay {
  import opened Spans
  import opened VolumeTypes
  import opened ReadPath
  import opened VolumeSpec
  import opened LogReplay
  import opened PieceStore
  import opened VolumeRuns

  /** What an attempt adds to the log. */
  ghost function Logged(v: Vol, a: Attempt, crc: Data -> Csum, blkSize: nat): seq<LogEntry>
    requires Possible(v, a, blkSize)
  {
    if a.Completed? then [RecordOf(a.req, v.index, crc)] else []
  }

  /** The log after a run of attempts. */
  ghost function LogOf(es: seq<Attempt>, crc: Data -> Csum, blkSize: nat): seq<LogEntry>
    requires ValidRun(es, crc, blkSize)
    decreases |es|
  {
    if es == [] then []
    else
      var n := |es| - 1;
      LogOf(es[..n], crc, blkSize) + Logged(Run(es[..n], crc, blkSize), es[n], crc, blkSize)
  }

  lemma LogMore(es: seq<Attempt>, a: Attempt, crc: Data -> Csum, blkSize: nat)
    requires ValidRun(es, crc, blkSize) && Possible(Run(es, crc, blkSize), a, blkSize)
    ensures ValidRun(es + [a], crc, blkSize)
    ensures LogOf(es + [a], crc, blkSize)
            == LogOf(es, crc, blkSize) + Logged(Run(es, crc, blkSize), a, crc, blkSize)
  {
    RunMore(es, a, crc, blkSize);
    assert (es + [a])[..|es|] == es;
  }

  lemma {:induction false} LogIsWellFormed(es: seq<Attempt>, crc: Data -> Csum, blkSize: nat)
    requires ValidRun(es, crc, blkSize)
    ensures AllWellFormed(LogOf(es, crc, blkSize))
    decreases |es|
  {
    if es != [] {
      var n := |es| - 1;
      RunLast(es, crc, blkSize);
      LogIsWellFormed(es[..n], crc, blkSize);
      if es[n].Completed? {
        RecordRoundTrip(es[n].req, Run(es[..n], crc, blkSize), crc);
      }
    }
  }

  /** The block that the latest completed write to an LBA put there. */
  ghost function LastCompleted(es: seq<Attempt>, l: int): Option<Data>
    requires AllBounded(es)
    decreases |es|
  {
    if es == [] then None
    else
      var n := |es| - 1;
      if es[n].Completed? then Next(es[n], l, LastCompleted(es[..n], l)) else LastCompleted(es[..n], l)
  }

  /** The latest attempt that put a block at the LBA failed as a whole. */
  ghost predicate FailedLast(es: seq<Attempt>, l: int)
    requires AllBounded(es)
    decreases |es|
  {
    es != [] && var n := |es| - 1;
                if Covered(es[n], l) then es[n].Failed? else FailedLast(es[..n], l)
  }

  // ---------- one LBA ----------

  /** The replayed index has `d` at LBA `l`, in a block that is still allocated and intact. */
  ghost predicate Keeps(idx: Index, v: Vol, crc: Data -> Csum, l: int, d: Option<Data>) {
    && (l in idx <==> d.Some?)
    && (l in idx ==>
          && idx[l].blk in v.alloc && idx[l].blk in v.disk && v.disk[idx[l].blk] == d.value
          && idx[l].csum == crc(d.value))
  }

  /** Whatever block the replayed index has at `l`, the live index maps to it from nowhere else. */
  ghost predicate Separate(idx: Index, live: Index, l: int) {
    l in idx ==> forall m :: m in live && live[m].blk == idx[l].blk ==> m == l
  }

  ghost predicate AllSeparate(idx: Index, live: Index) {
    forall l :: Separate(idx, live, l)
  }

  /** `idx'` is `idx` with the entries of a write. */
  ghost predicate Brings(idx: Index, idx': Index, w: WriteReq, crc: Data -> Csum, l: int)
    requires AllFit(w.pieces) && |Flatten(w.pieces)| == |w.data|
  {
    if Written(w, l) then l in idx' && idx'[l] == Value(Flatten(w.pieces)[l - w.lba], crc(w.data[l - w.lba]))
    else SameAt(idx', idx, l)
  }

  lemma OverlayBrings(idx: Index, w: WriteReq, vs: seq<Value>, crc: Data -> Csum, idx': Index, l: int)
    requires AllFit(w.pieces) && |Flatten(w.pieces)| == |w.data|
    requires vs == Values(Flatten(w.pieces), Csums(crc, w.data)) && idx' == idx + Overlay(w.lba, vs)
    ensures Brings(idx, idx', w, crc, l)
  {
    OverlayAt(w.lba, vs, l);
  }

  /** A replayed record brings the part of its write that got blocks. */
  lemma ReplayBrings(idx: Index, w: WriteReq, sw: WriteReq, v: Vol, crc: Data -> Csum, e: LogEntry, l: int)
    requires Recordable(v, w) && sw == Portion(w) && e == RecordOf(w, v.index, crc) && WellFormed(e)
    ensures Brings(idx, ApplyEntry(idx, e), sw, crc, l)
  {
    RecordRoundTrip(w, v, crc);
    OverlayBrings(idx, sw, EntryValues(e), crc, ApplyEntry(idx, e), l);
  }

  lemma CommitAgrees(idx: Index, w: WriteReq, v: Vol, crc: Data -> Csum, v': Vol, idx': Index, l: int)
    requires VolInv(v, crc) && Committed(v, w, crc, v') && Brings(idx, idx', w, crc, l)
    ensures SameAt(idx', v'.index, l) <==> Written(w, l) || SameAt(idx, v.index, l)
  {
    CommitIndex(v, w, crc, v', l);
  }

  /** A block that the commit neither brings nor frees. */
  lemma BlockStays(v: Vol, w: WriteReq, crc: Data -> Csum, v': Vol, b: Blk)
    requires VolInv(v, crc) && Committed(v, w, crc, v') && b in v.alloc && b in v.disk
    requires forall m :: m in v.index && v.index[m].blk == b ==> !Written(w, m)
    ensures b in v'.alloc && b in v'.disk && v'.disk[b] == v.disk[b]
  {
    StoreAt(v.disk, Flatten(w.pieces), w.data);
    if b in Freed(v.index, w) {
      var m := FreedWasOverwritten(v, w, b);
    }
  }

  lemma CommitKeepsCell(idx: Index, w: WriteReq, v: Vol, crc: Data -> Csum, v': Vol, idx': Index, l: int,
                        d: Option<Data>)
    requires VolInv(v, crc) && Committed(v, w, crc, v') && Brings(idx, idx', w, crc, l)
    requires Keeps(idx, v, crc, l, d) && Separate(idx, v.index, l)
    ensures Keeps(idx', v', crc, l, if Written(w, l) then Some(w.data[l - w.lba]) else d)
  {
    if Written(w, l) {
      CommitIndex(v, w, crc, v', l);
      CommitCell(v, w, crc, v', l);
      MappedNotFreed(v, w, crc, v', l);
    } else if l in idx {
      BlockStays(v, w, crc, v', idx[l].blk);
    }
  }

  lemma CommitSeparates(idx: Index, w: WriteReq, v: Vol, crc: Data -> Csum, v': Vol, idx': Index, l: int, m: int,
                        d: Option<Data>)
    requires VolInv(v, crc) && Committed(v, w, crc, v') && Brings(idx, idx', w, crc, l)
    requires Keeps(idx, v, crc, l, d) && Separate(idx, v.index, l)
    requires l in idx' && m in v'.index && v'.index[m].blk == idx'[l].blk
    ensures m == l
  {
    CommitIndex(v, w, crc, v', m);
    if Written(w, l) {
      assert idx'[l].blk in Flatten(w.pieces);
    }
  }

  lemma TornKeepsCell(idx: Index, w: WriteReq, v: Vol, crc: Data -> Csum, put: nat, t: Vol, l: int, d: Option<Data>)
    requires VolInv(v, crc) && IsTorn(v, w, crc, put, t)
    requires Keeps(idx, v, crc, l, d) && Separate(idx, v.index, l)
    ensures Keeps(idx, t, crc, l, d) && Separate(idx, t.index, l)
    ensures SameAt(idx, t.index, l) <==> !(w.lba <= l < w.lba + put) && SameAt(idx, v.index, l)
  {
    StoreAt(v.disk, Flatten(w.pieces), w.data);
    PartialAt(v.index, w.lba, NewValues(w, crc), put, l);
    TornBlock(v, w, l, put);
    forall m | l in idx && m in t.index && t.index[m].blk == idx[l].blk
      ensures m == l
    {
      TornCell(v, w, crc, put, t, m);
      TornBlock(v, w, m, put);
    }
    if l in t.index {
      TornCell(v, w, crc, put, t, l);
    }
  }

  // ---------- one attempt ----------

  /** What is true of every LBA after a run and a full replay of its log. */
  ghost predicate Restores(idx: Index, v: Vol, es: seq<Attempt>, crc: Data -> Csum)
    requires AllBounded(es)
  {
    && AllSeparate(idx, v.index)
    && forall l :: Keeps(idx, v, crc, l, LastCompleted(es, l)) && (SameAt(idx, v.index, l) <==> !FailedLast(es, l))
  }

  lemma CellRestores(idx: Index, v: Vol, w: WriteReq, crc: Data -> Csum, v': Vol, idx': Index, l: int,
                     d: Option<Data>)
    requires VolInv(v, crc) && Committed(v, w, crc, v') && Brings(idx, idx', w, crc, l)
    requires Keeps(idx, v, crc, l, d) && Separate(idx, v.index, l)
    ensures Keeps(idx', v', crc, l, if Written(w, l) then Some(w.data[l - w.lba]) else d)
    ensures SameAt(idx', v'.index, l) <==> Written(w, l) || SameAt(idx, v.index, l)
    ensures Separate(idx', v'.index, l)
  {
    CommitKeepsCell(idx, w, v, crc, v', idx', l, d);
    CommitAgrees(idx, w, v, crc, v', idx', l);
    forall m | l in idx' && m in v'.index && v'.index[m].blk == idx'[l].blk
      ensures m == l
    {
      CommitSeparates(idx, w, v, crc, v', idx', l, m, d);
    }
  }

  /** What one more completed write is the last one of. */
  lemma LastOfCompleted(es: seq<Attempt>, w: WriteReq, sw: WriteReq, l: int)
    requires AllBounded(es) && AllBounded(es + [Completed(w)])
    requires AllFit(w.pieces) && Prefix(sw, w) && |sw.data| == |Flatten(w.pieces)|
    ensures LastCompleted(es + [Completed(w)], l)
            == if Written(sw, l) then Some(sw.data[l - sw.lba]) else LastCompleted(es, l)
    ensures FailedLast(es + [Completed(w)], l) <==> !Written(sw, l) && FailedLast(es, l)
  {
    var more := es + [Completed(w)];
    assert more[..|es|] == es;
  }

  lemma CompletedRestores(idx: Index, v: Vol, es: seq<Attempt>, w: WriteReq, sw: WriteReq, crc: Data -> Csum, v': Vol,
                          idx': Index)
    requires AllBounded(es) && AllBounded(es + [Completed(w)]) && Restores(idx, v, es, crc) && Prefix(sw, w)
    requires VolInv(v, crc) && Committed(v, sw, crc, v') && forall l :: Brings(idx, idx', sw, crc, l)
    ensures Restores(idx', v', es + [Completed(w)], crc)
  {
    var more := es + [Completed(w)];
    forall l
      ensures Keeps(idx', v', crc, l, LastCompleted(more, l)) && (SameAt(idx', v'.index, l) <==> !FailedLast(more, l))
      ensures Separate(idx', v'.index, l)
    {
      assert Separate(idx, v.index, l) && Brings(idx, idx', sw, crc, l);
      CellRestores(idx, v, sw, crc, v', idx', l, LastCompleted(es, l));
      LastOfCompleted(es, w, sw, l);
    }
  }

  lemma FailedRestores(idx: Index, v: Vol, es: seq<Attempt>, w: WriteReq, put: nat, crc: Data -> Csum, t: Vol)
    requires AllBounded(es) && AllBounded(es + [Failed(w, put)]) && Restores(idx, v, es, crc)
    requires Recordable(v, w) && VolInv(v, crc) && IsTorn(v, Portion(w), crc, put, t)
    ensures Restores(idx, t, es + [Failed(w, put)], crc)
  {
    var more := es + [Failed(w, put)];
    assert more[..|es|] == es;
    forall l
      ensures Keeps(idx, t, crc, l, LastCompleted(more, l)) && (SameAt(idx, t.index, l) <==> !FailedLast(more, l))
      ensures Separate(idx, t.index, l)
    {
      assert Separate(idx, v.index, l);
      TornKeepsCell(idx, Portion(w), v, crc, put, t, l, LastCompleted(es, l));
    }
  }

  lemma NotWrittenRestores(idx: Index, v: Vol, es: seq<Attempt>, w: WriteReq, crc: Data -> Csum, v': Vol)
    requires AllFit(w.pieces)
    requires AllBounded(es) && AllBounded(es + [NotWritten(w)]) && Restores(idx, v, es, crc)
    requires v' == v.(alloc := v.alloc + Elems(Flatten(w.pieces)))
    ensures Restores(idx, v', es + [NotWritten(w)], crc)
  {
    var more := es + [NotWritten(w)];
    assert more[..|es|] == es;
    forall l
      ensures Keeps(idx, v', crc, l, LastCompleted(more, l)) && (SameAt(idx, v'.index, l) <==> !FailedLast(more, l))
    {
      assert Keeps(idx, v, crc, l, LastCompleted(es, l));
    }
  }

  // ---------- whole runs ----------

  /** After every run of writes, completed or failed on the way, replaying the whole log over an empty index brings
      back, at each LBA, exactly the block last put there by a completed write, with its checksum and in a block
      that is still allocated and intact; and that differs from the live index exactly where a failed write had
      put the last block. */
  lemma {:induction false} ReplayRestores(es: seq<Attempt>, crc: Data -> Csum, blkSize: nat)
    requires ValidRun(es, crc, blkSize)
    ensures AllBounded(es) && AllWellFormed(LogOf(es, crc, blkSize))
    ensures Restores(ApplyLog(map[], LogOf(es, crc, blkSize)), Run(es, crc, blkSize), es, crc)
    decreases |es|
  {
    RunIsBounded(es, crc, blkSize);
    LogIsWellFormed(es, crc, blkSize);
    if es != [] {
      var n := |es| - 1;
      ReplayRestores(es[..n], crc, blkSize);
      RunKeepsInv(es[..n], crc, blkSize);
      RunLast(es, crc, blkSize);
      assert es == es[..n] + [es[n]];
      AttemptRestores(es[..n], es[n], crc, blkSize, Run(es[..n], crc, blkSize), Run(es, crc, blkSize),
                      LogOf(es[..n], crc, blkSize), LogOf(es, crc, blkSize));
    }
  }

  lemma LoggedBrings(log: seq<LogEntry>, w: WriteReq, sw: WriteReq, v: Vol, crc: Data -> Csum, log': seq<LogEntry>)
    requires Recordable(v, w) && sw == Portion(w) && AllWellFormed(log) && AllWellFormed(log')
    requires log' == log + [RecordOf(w, v.index, crc)]
    ensures forall l :: Brings(ApplyLog(map[], log), ApplyLog(map[], log'), sw, crc, l)
  {
    var e := RecordOf(w, v.index, crc);
    assert log'[|log|] == e && WellFormed(e);
    ApplyLogSnoc(map[], log, e);
    forall l
      ensures Brings(ApplyLog(map[], log), ApplyLog(map[], log'), sw, crc, l)
    {
      ReplayBrings(ApplyLog(map[], log), w, sw, v, crc, e, l);
    }
  }

  lemma CompletedStep(es: seq<Attempt>, w: WriteReq, crc: Data -> Csum, v: Vol, v': Vol, log: seq<LogEntry>,
                      log': seq<LogEntry>)
    requires AllBounded(es) && AllBounded(es + [Completed(w)]) && AllWellFormed(log) && AllWellFormed(log')
    requires VolInv(v, crc) && Recordable(v, w) && Committed(v, Portion(w), crc, v')
    requires log' == log + [RecordOf(w, v.index, crc)] && Restores(ApplyLog(map[], log), v, es, crc)
    ensures Restores(ApplyLog(map[], log'), v', es + [Completed(w)], crc)
  {
    LoggedBrings(log, w, Portion(w), v, crc, log');
    CompletedRestores(ApplyLog(map[], log), v, es, w, Portion(w), crc, v', ApplyLog(map[], log'));
  }

  lemma AttemptRestores(es: seq<Attempt>, a: Attempt, crc: Data -> Csum, blkSize: nat, v: Vol, v': Vol,
                        log: seq<LogEntry>, log': seq<LogEntry>)
    requires AllBounded(es) && AllBounded(es + [a]) && AllWellFormed(log) && AllWellFormed(log')
    requires VolInv(v, crc) && Happened(v, a, crc, blkSize, v') && log' == log + Logged(v, a, crc, blkSize)
    requires Restores(ApplyLog(map[], log), v, es, crc)
    ensures Restores(ApplyLog(map[], log'), v', es + [a], crc)
  {
    match a
    case Completed(w) => CompletedStep(es, w, crc, v, v', log, log');
    case Failed(w, put) =>
      assert log' == log;
      FailedRestores(ApplyLog(map[], log), v, es, w, put, crc, v');
    case NotWritten(w) =>
      assert log' == log;
      NotWrittenRestores(ApplyLog(map[], log), v, es, w, crc, v');
  }

  // ---------- recovery ----------

  /** The log and the blocks on disk are those that the run has left. */
  ghost predicate Survived(es: seq<Attempt>, crc: Data -> Csum, blkSize: nat, disk: Disk, log: seq<LogEntry>) {
    ValidRun(es, crc, blkSize) && disk == Run(es, crc, blkSize).disk && log == LogOf(es, crc, blkSize)
  }

  /** The index found agrees with the log up to record `k` wherever the rest of the log does not write. */
  ghost predicate UpToDate(log: seq<LogEntry>, k: nat, found: Index) {
    && AllWellFormed(log) && k <= |log|
    && forall l :: Touches(log[k..], l) || SameAt(found, ApplyLog(map[], log[..k]), l)
  }

  /** An LBA is mapped exactly if a completed write has put a block there; the block mapped holds what the latest
      one put, and the entry has its checksum. */
  ghost predicate ShowsCompleted(idx: Index, disk: Disk, crc: Data -> Csum, es: seq<Attempt>)
    requires AllBounded(es)
  {
    forall l ::
      && (l in idx <==> LastCompleted(es, l).Some?)
      && (l in idx ==>
            && idx[l].blk in disk && disk[idx[l].blk] == LastCompleted(es, l).value
            && idx[l].csum == crc(LastCompleted(es, l).value))
  }

  /** Crash recovery keeps completed writes and undoes failed ones: from any replay point and any index found that is
      up to date with it, the replayed index shows at each LBA exactly what the last completed write put there. */
  lemma RecoveredReads(es: seq<Attempt>, crc: Data -> Csum, blkSize: nat, k: nat, found: Index)
    requires ValidRun(es, crc, blkSize) && UpToDate(LogOf(es, crc, blkSize), k, found)
    ensures AllBounded(es)
    ensures ShowsCompleted(ApplyLog(found, LogOf(es, crc, blkSize)[k..]), Run(es, crc, blkSize).disk, crc, es)
  {
    var log, v := LogOf(es, crc, blkSize), Run(es, crc, blkSize);
    ReplayRestores(es, crc, blkSize);
    ReplayConverges(log, k, found);
    var idx := ApplyLog(map[], log);
    assert forall l :: Keeps(idx, v, crc, l, LastCompleted(es, l));
  }

  /** Completed attempt `k` put a block there, and no completed one after it did. */
  ghost predicate LastCompletedCover(es: seq<Attempt>, l: int, k: nat)
    requires AllBounded(es) && k < |es|
  {
    es[k].Completed? && Covered(es[k], l) && forall j :: k < j < |es| && es[j].Completed? ==> !Covered(es[j], l)
  }

  lemma {:induction false} LastCompletedExact(es: seq<Attempt>, l: int)
    requires AllBounded(es)
    ensures LastCompleted(es, l).None? <==> forall k :: 0 <= k < |es| && es[k].Completed? ==> !Covered(es[k], l)
    ensures forall k :: 0 <= k < |es| && LastCompletedCover(es, l, k) ==>
                          LastCompleted(es, l) == Some(es[k].req.data[l - es[k].req.lba])
    decreases |es|
  {
    if es != [] {
      var n := |es| - 1;
      LastCompletedExact(es[..n], l);
      assert forall k :: 0 <= k < n ==> es[..n][k] == es[k];
      forall k | 0 <= k < |es| && LastCompletedCover(es, l, k)
        ensures LastCompleted(es, l) == Some(es[k].req.data[l - es[k].req.lba])
      {
        if k < n {
          assert LastCompletedCover(es[..n], l, k);
        }
      }
    }
  }
}
