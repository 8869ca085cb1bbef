/** The volume object: the copy-on-write path of a write, the commit handler that frees old blocks and
    replays records after a crash, and the read path, each proved against the specification. */
module VolumeDevice {
  import opened Spans
  import opened VolumeTypes
  import opened FixedIndex
  import opened JournalKey
  import opened RunMerge
  import opened ReadPath
  import opened VolumeSpec
  import opened LogReplay
  import opened PieceStore
  import opened VolumeRuns
  import opened CrashReplay
  import opened Widths

  datatype WriteResult = Done | NoSpace | IoError | IndexError | JournalError | NeverReturns

  datatype ReadResult = ReadOk | ReadFailed | BadChecksum | Overrun

  /** What can go wrong during a write: allocation, the data write, the index put at one LBA, and the journal. */
  datatype Faults = Faults(allocOk: bool, dataOk: bool, failAt: Option<int>, journalOk: bool)

  /** The index put fails at an LBA of the part of the write that got blocks. */
  predicate Hits(w: WriteReq, faults: Faults)
    requires AllFit(w.pieces)
  {
    faults.failAt.Some? && w.lba <= faults.failAt.value < w.lba + |Flatten(w.pieces)|
  }

  /** What a write adds to the history of the volume. */
  function Outcome(res: WriteResult, w: WriteReq, put: nat): seq<Attempt> {
    match res
    case Done => [Completed(w)]
    case IoError => [NotWritten(w)]
    case IndexError => [Failed(w, put)]
    case JournalError => [Failed(w, put)]
    case _ => []
  }

  class Volume {
    const crc: Data -> Csum
    const blkSize: nat
    const index: FixedIndexTable
    var disk: Disk
    var alloc: set<Blk>
    var log: seq<LogEntry>
    ghost var history: seq<Attempt>

    constructor (crc: Data -> Csum, blkSize: nat)
      requires 0 < blkSize <= TWO16
      ensures fresh(index) && Valid() && V() == EMPTY && log == [] && history == []
      ensures this.crc == crc && this.blkSize == blkSize
    {
      this.crc, this.blkSize := crc, blkSize;
      this.index := new FixedIndexTable();
      disk, alloc, log, history := map[], {}, [], [];
    }

    /** The volume is what its history of writes has made of an empty one. */
    ghost predicate Valid()
      reads this, index
    {
      && 0 < blkSize <= TWO16
      && ValidRun(history, crc, blkSize) && V() == VolumeRuns.Run(history, crc, blkSize)
      && log == LogOf(history, crc, blkSize)
    }

    ghost function V(): Vol
      reads this, index
    {
      Vol(index.entries, disk, alloc)
    }

    /** Note the new block and checksum of every block of a piece. */
    method DescribePiece(data: seq<Data>, p: Piece, start: int, done: nat, notes: Info, ghost vs: seq<Value>)
      returns (info: Info)
      requires HoldsData(data, p, vs, done, crc)
      requires forall l :: l in notes ==> l < start + done
      ensures Extends(info, notes, start, vs, done, done + p.count)
    {
      info := notes;
      for i := 0 to p.count
        invariant Extends(info, notes, start, vs, done, done + i)
      {
        DescribeOne(info, notes, start, vs, done, done + i, vs[done + i]);
        info := info[start + (done + i) := BlockInfo(Nth(p, i), crc(data[done + i]), None)];
      }
    }

    /** One piece of step 3 of a write, with the entries of the write given as a plain list. */
    method PutPiece(start: int, from: nat, to: nat, info: Info, failAt: Option<int>,
                    ghost vs: seq<Value>, ghost noted: Info, ghost idx: Index)
      returns (notes: Info, out: PutOutcome)
      requires 0 <= start && from < to <= |vs|
      requires Progress(index.entries, noted, start, vs, idx, from) && Extends(info, noted, start, vs, from, to)
      modifies index
      ensures out.Stored? <==> failAt.None? || !(start + from <= failAt.value < start + to)
      ensures out.RunsAway? <==> start + from == 0 && failAt == Some(0)
      ensures out.RolledBack? ==> index.entries == old(index.entries)
      ensures out.Stored? ==> Progress(index.entries, notes, start, vs, idx, to)
    {
      var first, last := start + from, start + to - 1;
      assert forall l :: first <= l <= last ==> l in info && info[l].prior.None?;
      AfterPut(index.entries, idx, start, vs, from, to, noted, info, first, last);
      notes, out := index.WriteToIndex(first, last, info, failAt);
    }

    /** Step 3 of a write.  A put that fails in the first piece leaves the index as it was; one that fails
        later leaves the pieces before it in the index, although the write as a whole has failed. */
    method StoreIndex(w: WriteReq, failAt: Option<int>) returns (notes: Info, done: nat, out: PutOutcome)
      requires w.lba >= 0 && AllFit(w.pieces) && |Flatten(w.pieces)| == |w.data|
      modifies index
      ensures done <= |w.data|
      ensures out.Stored? <==> failAt.None? || !Written(w, failAt.value)
      ensures out.RunsAway? <==> failAt == Some(0) && Written(w, 0)
      ensures !out.RunsAway? ==> index.entries == Partial(old(index.entries), w.lba, NewValues(w, crc), done)
      ensures out.Stored? ==> done == |w.data| && AllNoted(notes, w.lba, NewValues(w, crc), old(index.entries), done)
      ensures out.Stored? ==> forall l :: l in notes ==> l < w.lba + done
      ensures out.RolledBack? ==> FailedPiece(w, done, failAt.value)
    {
      notes, done, out := map[], 0, Stored;
      ghost var idx := index.entries;
      NothingStored(idx, w.lba, NewValues(w, crc));
      for k := 0 to |w.pieces|
        invariant done == |Flatten(w.pieces[..k])| <= |w.data|
        invariant Progress(index.entries, notes, w.lba, NewValues(w, crc), idx, done)
        invariant failAt.Some? ==> !(w.lba <= failAt.value < w.lba + done)
        invariant out.Stored? && (k > 0 ==> done > 0)
      {
        PieceSize(w.pieces, k);
        var next := done + w.pieces[k].count;
        DataPiece(w, k, done, crc);
        var info := DescribePiece(w.data, w.pieces[k], w.lba, done, notes, NewValues(w, crc));
        notes, out := PutPiece(w.lba, done, next, info, failAt, NewValues(w, crc), notes, idx);
        if !out.Stored? {
          return;
        }
        done := next;
      }
      assert w.pieces[..|w.pieces|] == w.pieces;
    }

    /** The valid previous blocks among the notes, in the order the notes are traversed. */
    method CollectOlds(w: WriteReq, notes: Info, ghost idx: Index) returns (olds: seq<Blk>)
      requires AllFit(w.pieces) && |Flatten(w.pieces)| == |w.data|
      requires AllNoted(notes, w.lba, NewValues(w, crc), idx, |w.data|)
      requires forall l :: l in w.order ==> Written(w, l)
      ensures olds == Olds(idx, w.order)
    {
      olds := [];
      for i := 0 to |w.order|
        invariant olds == Olds(idx, w.order[..i])
      {
        var l := w.order[i];
        assert w.order[..i + 1][..i] == w.order[..i];
        assert l in w.order && Written(w, l);
        assert Noted(notes, l, w.lba, NewValues(w, crc), idx);
        if notes[l].prior.Some? {
          olds := olds + [notes[l].prior.value.blk];
        }
      }
      assert w.order[..|w.order|] == w.order;
    }

    /** The checksums to journal, one per LBA; an LBA without a note counts as a fresh entry. */
    method CollectCsums(w: WriteReq, notes: Info, ghost idx: Index) returns (csums: seq<Csum>)
      requires AllFit(w.pieces) && |Flatten(w.pieces)| <= |w.data|
      requires AllNoted(notes, w.lba, NewValues(Portion(w), crc), idx, |Flatten(w.pieces)|)
      requires forall l :: l in notes ==> l < w.lba + |Flatten(w.pieces)|
      ensures csums == RecordCsums(w, crc)
    {
      csums := [];
      var lba := w.lba;
      for count := 0 to |w.data|
        invariant lba == w.lba + count && |csums| == count
        invariant forall i :: 0 <= i < count ==> csums[i] == RecordCsums(w, crc)[i]
      {
        assert count < |Flatten(w.pieces)| ==> Noted(notes, lba, w.lba, NewValues(Portion(w), crc), idx);
        csums := csums + [if lba in notes then notes[lba].newCsum else 0];
        lba := lba + 1;
      }
    }

    /** Free the old blocks of a record, from `cursor` on, as far as they are still allocated. */
    method FreeOlds(e: LogEntry, cursor: nat)
      requires |e.key| >= HEADER_SIZE && cursor + BLK_SIZE * NumOld(e.key) <= |e.key|
      modifies this`alloc
      ensures alloc == old(alloc) - Elems(OldsFrom(e, cursor))
    {
      var at := cursor;
      for j := 0 to NumOld(e.key)
        invariant at == cursor + BLK_SIZE * j
        invariant alloc == old(alloc) - Elems(OldsFrom(e, cursor)[..j])
      {
        var b := OldAt(e.key, at);
        assert OldsFrom(e, cursor)[..j + 1] == OldsFrom(e, cursor)[..j] + [b];
        if b in alloc {
          alloc := alloc - {b};
        }
        at := at + BLK_SIZE;
      }
      assert OldsFrom(e, cursor)[..NumOld(e.key)] == OldsFrom(e, cursor);
    }

    /** Note the blocks of one piece of a record, taking the checksums from the key bytes at the cursor. */
    method DescribeFromKey(key: seq<Byte>, p: Piece, start: int, done: nat, notes: Info, cursor: nat,
                           ghost vs: seq<Value>)
      returns (info: Info, at: nat)
      requires HoldsCsums(key, cursor, p, vs, done)
      requires forall l :: l in notes ==> l < start + done
      ensures at == cursor + CSUM_SIZE * p.count
      ensures Extends(info, notes, start, vs, done, done + p.count)
    {
      info, at := notes, cursor;
      for i := 0 to p.count
        invariant at == cursor + CSUM_SIZE * i
        invariant Extends(info, notes, start, vs, done, done + i)
      {
        DescribeOne(info, notes, start, vs, done, done + i, vs[done + i]);
        info := info[start + (done + i) := BlockInfo(Nth(p, i), CsumAt(key, at), None)];
        at := at + CSUM_SIZE;
      }
    }

    /** One piece of a replayed record. */
    method ReplayPiece(e: LogEntry, k: nat, done: nat, notes: Info, cursor: nat, ghost idx: Index)
      returns (after: Info, next: nat, at: nat)
      requires WellFormed(e) && k < |e.pieces| && done == |Flatten(e.pieces[..k])|
      requires cursor == HEADER_SIZE + CSUM_SIZE * done && done <= |EntryValues(e)|
      requires Progress(index.entries, notes, StartLba(e.key), EntryValues(e), idx, done)
      modifies index
      ensures next == |Flatten(e.pieces[..k + 1])| && next <= |EntryValues(e)|
      ensures at == HEADER_SIZE + CSUM_SIZE * next
      ensures Progress(index.entries, after, StartLba(e.key), EntryValues(e), idx, next)
    {
      PieceSize(e.pieces, k);
      EntryPiece(e, k, done);
      ghost var vs := EntryValues(e);
      var start, info, out := StartLba(e.key), notes, Stored;
      next := done + e.pieces[k].count;
      info, at := DescribeFromKey(e.key, e.pieces[k], start, done, notes, cursor, vs);
      after, out := PutPiece(start, done, next, info, None, vs, notes, idx);
    }

    /** The index part of replaying a record; the cursor ends behind one checksum per block. */
    method ReplayIndex(e: LogEntry) returns (cursor: nat)
      requires WellFormed(e)
      modifies index
      ensures cursor == ReplayOffset(e)
      ensures index.entries == ApplyEntry(old(index.entries), e)
    {
      var notes: Info, done := map[], 0;
      cursor := HEADER_SIZE;
      ghost var idx := index.entries;
      NothingStored(idx, StartLba(e.key), EntryValues(e));
      for k := 0 to |e.pieces|
        invariant done == |Flatten(e.pieces[..k])| <= |EntryValues(e)|
        invariant cursor == HEADER_SIZE + CSUM_SIZE * done
        invariant Progress(index.entries, notes, StartLba(e.key), EntryValues(e), idx, done)
      {
        notes, done, cursor := ReplayPiece(e, k, done, notes, cursor, idx);
      }
      assert e.pieces[..|e.pieces|] == e.pieces;
      assert EntryValues(e)[..done] == EntryValues(e);
    }

    /** The commit handler.  Live, it skips the checksums and frees the old blocks; after a crash it walks
        the checksums, storing every entry again, and frees the old blocks it takes to follow. */
    method OnWrite(e: LogEntry, live: bool)
      requires WellFormed(e)
      modifies this`alloc, index
      ensures index.entries == if live then old(index.entries) else ApplyEntry(old(index.entries), e)
      ensures alloc == old(alloc) - Elems(if live then EntryOlds(e) else ReplayOlds(e))
    {
      var cursor;
      if live {
        cursor := HEADER_SIZE + NumLbas(e.key) * CSUM_SIZE;
      } else {
        cursor := ReplayIndex(e);
      }
      FreeOlds(e, cursor);
    }

    /** Crash recovery: replay the log from record `k` on over whatever index was found. */
    method Recover(k: nat)
      requires AllWellFormed(log) && k <= |log|
      modifies this`alloc, index
      ensures index.entries == ApplyLog(old(index.entries), log[k..])
      ensures alloc == FreeAll(old(alloc), OldsOf(log[k..]))
      ensures Survived(history, crc, blkSize, disk, log) && UpToDate(log, k, old(index.entries)) ==>
                AllBounded(history) && ShowsCompleted(index.entries, disk, crc, history)
    {
      ghost var found, was := index.entries, alloc;
      for i := k to |log|
        invariant Replayed(index.entries, alloc, found, was, log, k, i)
      {
        ReplayedMore(index.entries, alloc, found, was, log, k, i);
        OnWrite(log[i], false);
      }
      assert log[k..|log|] == log[k..];
      if Survived(history, crc, blkSize, disk, log) && UpToDate(log, k, found) {
        RecoveredReads(history, crc, blkSize, k, found);
      }
    }

    /** The new entries are in the index: list the old blocks, journal the record, and commit it. */
    method JournalAndCommit(w: WriteReq, notes: Info, ghost before: Vol)
      requires Recordable(before, w) && VolInv(before, crc)
      requires AllNoted(notes, w.lba, NewValues(Portion(w), crc), before.index, |Flatten(w.pieces)|)
      requires forall l :: l in notes ==> l < w.lba + |Flatten(w.pieces)|
      requires V() == Torn(before, Portion(w), crc, |Flatten(w.pieces)|)
      modifies this`log, this`alloc, index
      ensures V() == Commit(before, Portion(w), crc)
      ensures log == old(log) + [RecordOf(w, before.index, crc)] && WellFormed(RecordOf(w, before.index, crc))
    {
      RecordRoundTrip(w, before, crc);
      var olds := CollectOlds(Portion(w), notes, before.index);
      var csums := CollectCsums(w, notes, before.index);
      var key := EncodeKey(w.lba, csums, olds);
      var e := LogEntry(w.pieces, key);
      log := log + [e];
      TornAll(before, Portion(w), crc);
      OnWrite(e, true);
    }

    /** Put, journal and commit: the part of a write that follows the data. */
    method StoreAndCommit(w: WriteReq, faults: Faults, ghost before: Vol) returns (res: WriteResult, ghost put: nat)
      requires Recordable(before, w) && VolInv(before, crc) && AllWellFormed(log)
      requires V() == Torn(before, Portion(w), crc, 0)
      modifies this`log, this`alloc, index
      ensures res.NeverReturns? <==> Hits(w, faults) && faults.failAt == Some(0)
      ensures res.IndexError? <==> Hits(w, faults) && faults.failAt != Some(0)
      ensures res.JournalError? <==> !Hits(w, faults) && !faults.journalOk
      ensures res.Done? <==> !Hits(w, faults) && faults.journalOk
      ensures res.Done? ==> V() == Commit(before, Portion(w), crc)
      ensures res.Done? ==> log == old(log) + [RecordOf(w, before.index, crc)] && AllWellFormed(log)
      ensures !res.Done? ==> log == old(log)
      ensures res.IndexError? ==> FailedPiece(Portion(w), put, faults.failAt.value)
      ensures res.JournalError? ==> put == |Flatten(w.pieces)|
      ensures res.IndexError? || res.JournalError? ==> IsTorn(before, Portion(w), crc, put, V())
    {
      NothingStored(before.index, w.lba, NewValues(Portion(w), crc));
      var notes, done, out := StoreIndex(Portion(w), faults.failAt);
      put := done;
      if out.RunsAway? {
        return NeverReturns, put;
      }
      if out.RolledBack? {
        return IndexError, put;
      }
      if !faults.journalOk {
        return JournalError, put;
      }
      JournalAndCommit(w, notes, before);
      return Done, put;
    }

    /** A write from allocation to commit, apart from its place in the history. */
    method TryWrite(w: WriteReq, faults: Faults) returns (res: WriteResult, ghost put: nat)
      requires VolInv(V(), crc) && AllWellFormed(log)
      requires faults.allocOk ==> Granted(w, blkSize) && Admissible(V(), Portion(w))
      modifies this`disk, this`alloc, this`log, index
      ensures res.NoSpace? <==> !faults.allocOk
      ensures res.IoError? <==> faults.allocOk && !faults.dataOk
      ensures res.NeverReturns? <==> faults.allocOk && faults.dataOk && Hits(w, faults) && faults.failAt == Some(0)
      ensures res.IndexError? <==> faults.allocOk && faults.dataOk && Hits(w, faults) && faults.failAt != Some(0)
      ensures res.JournalError? <==> faults.allocOk && faults.dataOk && !Hits(w, faults) && !faults.journalOk
      ensures res.Done? <==> faults.allocOk && faults.dataOk && !Hits(w, faults) && faults.journalOk
      ensures res.IndexError? ==> FailedPiece(Portion(w), put, faults.failAt.value)
      ensures res.JournalError? ==> put == |Flatten(w.pieces)|
      ensures res.NoSpace? ==> V() == old(V())
      ensures !res.NoSpace? && !res.NeverReturns? ==>
                Happened(old(V()), Outcome(res, w, put)[0], crc, blkSize, V())
      ensures log == if res.Done? then old(log) + [RecordOf(w, old(V()).index, crc)] else old(log)
      ensures AllWellFormed(log)
    {
      ghost var before := V();
      put := 0;
      if !faults.allocOk {
        return NoSpace, put;
      }
      assert Recordable(before, w);
      alloc := alloc + Elems(Flatten(w.pieces));
      if !faults.dataOk {
        return IoError, put;
      }
      disk := Store(disk, Flatten(w.pieces), w.data[..|Flatten(w.pieces)|]);
      NothingStored(before.index, w.lba, NewValues(Portion(w), crc));
      res, put := StoreAndCommit(w, faults, before);
    }

    /** A write.  It succeeds exactly if allocation, data write, every index put and the journal succeed; then it
        does what the specification of a commit says for the part that has blocks, and leaves its record in the
        log.  Otherwise nothing is journalled and no block is freed; what was put before the failure stays in
        the index: whole pieces before a failing put, everything before a failing journal. */
    method Write(w: WriteReq, faults: Faults) returns (res: WriteResult, ghost put: nat)
      requires Valid()
      requires faults.allocOk ==> Granted(w, blkSize) && Admissible(V(), Portion(w))
      modifies this`disk, this`alloc, this`log, this`history, index
      ensures res.NoSpace? <==> !faults.allocOk
      ensures res.IoError? <==> faults.allocOk && !faults.dataOk
      ensures res.NeverReturns? <==> faults.allocOk && faults.dataOk && Hits(w, faults) && faults.failAt == Some(0)
      ensures res.IndexError? <==> faults.allocOk && faults.dataOk && Hits(w, faults) && faults.failAt != Some(0)
      ensures res.JournalError? <==> faults.allocOk && faults.dataOk && !Hits(w, faults) && !faults.journalOk
      ensures res.Done? <==> faults.allocOk && faults.dataOk && !Hits(w, faults) && faults.journalOk
      ensures res.IndexError? ==> FailedPiece(Portion(w), put, faults.failAt.value)
      ensures res.JournalError? ==> put == |Flatten(w.pieces)|
      ensures !res.NeverReturns? ==> Valid()
      ensures res.Done? ==> history == old(history) + [Completed(w)]
      ensures res.IndexError? || res.JournalError? ==> history == old(history) + [Failed(w, put)]
      ensures res.IoError? ==> history == old(history) + [NotWritten(w)]
      ensures res.NoSpace? ==> history == old(history)
      ensures res.Done? ==> V() == Commit(old(V()), Portion(w), crc)
      ensures log == if res.Done? then old(log) + [RecordOf(w, old(V()).index, crc)] else old(log)
    {
      RunKeepsInv(history, crc, blkSize);
      LogIsWellFormed(history, crc, blkSize);
      res, put := TryWrite(w, faults);
      if res.NoSpace? || res.NeverReturns? {
        return;
      }
      RunMore(history, Outcome(res, w, put)[0], crc, blkSize);
      LogMore(history, Outcome(res, w, put)[0], crc, blkSize);
      history := history + Outcome(res, w, put);
    }

    /** The query of a read, its runs, and the fill. */
    method FillBuffer(lba: int, buf: array<Data>) returns (kvs: seq<Entry>, inBounds: bool)
      requires VolInv(V(), crc)
      requires 0 <= lba && lba + buf.Length < TWO64 && 1 <= buf.Length < TWO32
      modifies buf
      ensures kvs == Query(index.entries, lba, lba + buf.Length)
      ensures inBounds <==> InReach(NarrowAll(RunsIn(index.entries, lba, lba + buf.Length)), lba)
      ensures inBounds ==> AllSeen(buf[..], V(), blkSize, lba)
    {
      var idx, dsk, end := index.entries, disk, lba + buf.Length;
      ghost var v := V();
      ghost var rs := RunsIn(idx, lba, end);
      RunsPartition(idx, lba, end);
      NarrowedAreOrdered(rs, idx, dsk, lba, end);
      kvs := Query(idx, lba, end);
      var runs := Coalesce(kvs);
      inBounds := SubmitReads(runs, lba, dsk, blkSize, buf);
      if inBounds {
        FilledIsSeen(buf[..], v, crc, blkSize, lba);
      }
    }

    /** The read of a volume that is consistent. */
    method TryRead(lba: int, buf: array<Data>, dataOk: bool) returns (res: ReadResult)
      requires VolInv(V(), crc)
      requires 0 <= lba && lba + buf.Length < TWO64 && 1 <= buf.Length < TWO32
      modifies buf
      ensures ReadVerdict(res, V(), crc, blkSize, lba, buf.Length, dataOk)
      ensures res.ReadOk? ==> AllSeen(buf[..], V(), blkSize, lba)
    {
      ghost var v, idx := V(), index.entries;
      var kvs, inBounds := FillBuffer(lba, buf);
      if !inBounds {
        return Overrun;
      }
      MappedExact(v, crc, blkSize, lba, lba + buf.Length);
      if kvs == [] {
        return ReadOk;
      }
      if !dataOk {
        return ReadFailed;
      }
      var ok := VerifyChecksums(kvs, lba, buf.Length, buf, crc, idx);
      SeenChecksums(buf[..], v, crc, blkSize, lba);
      return if ok then ReadOk else BadChecksum;
    }

    /** A read.  If the index answers, the fill overruns the buffer exactly if the runs are not in reach; then the
        buffer holds what the runs bring, that is, the mapped blocks but for those a long run cuts off, and the
        checksums reject it exactly if they notice one of these.  Without a run of 2^16 blocks in the range the
        buffer holds what was last written, zeros in the holes, and is never rejected.  If the index query
        fails, the read claims success without having touched the buffer. */
    method Read(lba: int, buf: array<Data>, queryOk: bool, dataOk: bool) returns (res: ReadResult)
      requires Valid()
      requires 0 <= lba && lba + buf.Length < TWO64 && 1 <= buf.Length < TWO32
      modifies buf
      ensures !queryOk ==> res.ReadOk? && buf[..] == old(buf[..])
      ensures queryOk ==> ReadVerdict(res, V(), crc, blkSize, lba, buf.Length, dataOk)
      ensures queryOk && res.ReadOk? ==> Backed(index.entries, disk) && AllSeen(buf[..], V(), blkSize, lba)
      ensures queryOk && !LongRun(index.entries, lba, lba + buf.Length) ==>
                var idx := index.entries;
                var addressable := lba < 0x1_0000_0000
                                   && forall l :: lba <= l < lba + buf.Length && l in idx ==> l + 1 < 0x1_0000_0000;
                var needsData := exists l :: lba <= l < lba + buf.Length && l in idx;
                && (res.Overrun? <==> !addressable)
                && (res.ReadFailed? <==> addressable && needsData && !dataOk)
                && (res.ReadOk? <==> addressable && (needsData ==> dataOk))
                && (res.ReadOk? ==> AllBounded(history) && HoldsLast(buf[..], history, blkSize, lba))
    {
      if !queryOk {
        return ReadOk;
      }
      RunKeepsInv(history, crc, blkSize);
      res := TryRead(lba, buf, dataOk);
      WithoutLongRuns(V(), crc, blkSize, lba, buf.Length);
      if res.ReadOk? {
        SeenIsLast(buf[..], V(), crc, blkSize, lba, history);
      }
    }
  }

  /** How a read ends. */
  ghost predicate ReadVerdict(res: ReadResult, v: Vol, crc: Data -> Csum, blkSize: nat, lba: int, n: nat,
                              dataOk: bool)
  {
    var rs := RunsIn(v.index, lba, lba + n);
    if !InReach(NarrowAll(rs), lba) then res.Overrun?
    else if !dataOk && SomeMapped(v.index, lba, lba + n) then res.ReadFailed?
    else if NoticesCut(v, crc, blkSize, rs) then res.BadChecksum?
    else res.ReadOk?
  }

  ghost predicate SomeMapped(idx: Index, lo: int, hi: int) {
    exists l :: lo <= l < hi && l in idx
  }

  /** Zeros in place of a block that was cut off do not have its checksum. */
  ghost predicate NoticesCut(v: Vol, crc: Data -> Csum, blkSize: nat, rs: seq<Run>) {
    exists l :: CutOff(rs, l) && l in v.index && crc(Zeros(blkSize)) != v.index[l].csum
  }

  /** The buffer holds what a read of its range brings. */
  ghost predicate AllSeen(bs: seq<Data>, v: Vol, blkSize: nat, lba: int)
    requires Backed(v.index, v.disk)
  {
    forall i :: 0 <= i < |bs| ==> bs[i] == Seen(RunsIn(v.index, lba, lba + |bs|), v.index, v.disk, blkSize, lba + i)
  }

  lemma FilledIsSeen(bs: seq<Data>, v: Vol, crc: Data -> Csum, blkSize: nat, lba: int)
    requires VolInv(v, crc)
    requires var ns := NarrowAll(RunsIn(v.index, lba, lba + |bs|));
             AllOnDisk(ns, v.disk) && Filled(bs, ns, v.disk, blkSize, lba, |bs|)
    ensures AllSeen(bs, v, blkSize, lba)
  {
    var rs := RunsIn(v.index, lba, lba + |bs|);
    RunsPartition(v.index, lba, lba + |bs|);
    NarrowedAreOrdered(rs, v.index, v.disk, lba, lba + |bs|);
    forall i | 0 <= i < |bs|
      ensures bs[i] == Seen(rs, v.index, v.disk, blkSize, lba + i)
    {
      NarrowedShow(rs, v.index, v.disk, blkSize, lba, lba + |bs|, lba + i);
    }
  }

  /** What the checksum walk finds in such a buffer. */
  lemma SeenChecksums(bs: seq<Data>, v: Vol, crc: Data -> Csum, blkSize: nat, lba: int)
    requires VolInv(v, crc) && AllSeen(bs, v, blkSize, lba)
    ensures (forall l :: lba <= l < lba + |bs| && l in v.index ==> crc(bs[l - lba]) == v.index[l].csum)
            <==> !NoticesCut(v, crc, blkSize, RunsIn(v.index, lba, lba + |bs|))
  {
    var rs := RunsIn(v.index, lba, lba + |bs|);
    RunsPartition(v.index, lba, lba + |bs|);
    forall l | lba <= l < lba + |bs| && l in v.index
      ensures crc(bs[l - lba]) == v.index[l].csum <==> !(CutOff(rs, l) && crc(Zeros(blkSize)) != v.index[l].csum)
    {
      assert bs[l - lba] == Seen(rs, v.index, v.disk, blkSize, lba + (l - lba));
    }
    forall l | CutOff(rs, l)
      ensures lba <= l < lba + |bs|
    {
      var k :| 0 <= k < |rs| && InRun(rs[k], l) && !InRun(Narrow(rs[k]), l);
    }
  }

  /** With one, the checksums reject the read, unless a block that was cut off happens to have the checksum of
      a zero block. */
  lemma LongRunIsNoticed(v: Vol, crc: Data -> Csum, blkSize: nat, lo: int, hi: int)
    requires LongRun(v.index, lo, hi)
    requires forall l :: lo <= l < hi && l in v.index ==> v.index[l].csum != crc(Zeros(blkSize))
    ensures NoticesCut(v, crc, blkSize, RunsIn(v.index, lo, hi))
  {
    var rs := RunsIn(v.index, lo, hi);
    RunsPartition(v.index, lo, hi);
    CutOffExact(rs, v.index, lo, hi);
    var l :| CutOff(rs, l);
    var k :| 0 <= k < |rs| && InRun(rs[k], l) && !InRun(Narrow(rs[k]), l);
    assert Serves(rs[k], v.index, l);
  }

  /** LBAs 0 to 2^16 - 1 in consecutive blocks: an addressable range that the read path reads short. */
  function LongIndex(csum: Csum): Index {
    map l | 0 <= l < TWO16 :: Value(Blk(0, l), csum)
  }

  lemma LongIndexIsLong(idx: Index, csum: Csum)
    requires idx == LongIndex(csum)
    ensures LongRun(idx, 0, TWO16) && Addressable(idx, 0, TWO16)
  {
    assert LongFrom(idx, 0);
  }

  /** A range below 2^32 is in reach whatever is mapped there. */
  lemma LowRangeIsInReach(idx: Index, lo: int, hi: int)
    requires lo <= hi < TWO32
    ensures InReach(NarrowAll(RunsIn(idx, lo, hi)), lo)
  {
    var rs := RunsIn(idx, lo, hi);
    RunsPartition(idx, lo, hi);
    forall k | 0 <= k < |NarrowAll(rs)|
      ensures NarrowAll(rs)[k].lba + NarrowAll(rs)[k].piece.count < TWO32
    {
      assert NarrowAll(rs)[k] == Narrow(rs[k]);
    }
  }

  lemma LongIndexIsRejected(v: Vol, crc: Data -> Csum, blkSize: nat, csum: Csum)
    requires v.index == LongIndex(csum) && csum != crc(Zeros(blkSize))
    ensures Addressable(v.index, 0, TWO16) && ReadVerdict(BadChecksum, v, crc, blkSize, 0, TWO16, true)
  {
    LongIndexIsLong(v.index, csum);
    LowRangeIsInReach(v.index, 0, TWO16);
    LongRunIsNoticed(v, crc, blkSize, 0, TWO16);
  }

  /** With no run of 2^16 blocks, nothing is cut off. */
  lemma WithoutLongRuns(v: Vol, crc: Data -> Csum, blkSize: nat, lba: int, n: nat)
    ensures var rs := RunsIn(v.index, lba, lba + n);
            !LongRun(v.index, lba, lba + n) ==>
              && (InReach(NarrowAll(rs), lba) <==> Addressable(v.index, lba, n))
              && (forall l :: !CutOff(rs, l)) && !NoticesCut(v, crc, blkSize, rs)
  {
    RunsPartition(v.index, lba, lba + n);
    PartitionWithoutLongRuns(RunsIn(v.index, lba, lba + n), v, crc, blkSize, lba, n);
  }

  lemma PartitionWithoutLongRuns(rs: seq<Run>, v: Vol, crc: Data -> Csum, blkSize: nat, lba: int, n: nat)
    requires Partition(rs, v.index, lba, lba + n)
    ensures !LongRun(v.index, lba, lba + n) ==>
              && (InReach(NarrowAll(rs), lba) <==> Addressable(v.index, lba, n))
              && (forall l :: !CutOff(rs, l)) && !NoticesCut(v, crc, blkSize, rs)
  {
    CutOffExact(rs, v.index, lba, lba + n);
    if !LongRun(v.index, lba, lba + n) {
      ReachExact(rs, v.index, lba, n);
    }
  }

  lemma SeenIsLast(bs: seq<Data>, v: Vol, crc: Data -> Csum, blkSize: nat, lba: int, es: seq<Attempt>)
    requires ValidRun(es, crc, blkSize) && v == VolumeRuns.Run(es, crc, blkSize)
    requires VolInv(v, crc) && AllSeen(bs, v, blkSize, lba)
    ensures AllBounded(es)
    ensures !LongRun(v.index, lba, lba + |bs|) ==> HoldsLast(bs, es, blkSize, lba)
  {
    RunIsBounded(es, crc, blkSize);
    if !LongRun(v.index, lba, lba + |bs|) {
      WithoutLongRuns(v, crc, blkSize, lba, |bs|);
      forall i | 0 <= i < |bs|
        ensures bs[i] == View(v.index, v.disk, blkSize, lba + i)
      {
        assert !CutOff(RunsIn(v.index, lba, lba + |bs|), lba + i);
      }
      ReadShowsLastWrites(es, crc, blkSize, v, bs, lba);
    }
  }

  /** The query is empty exactly if nothing is mapped, and then nothing can be cut off. */
  lemma MappedExact(v: Vol, crc: Data -> Csum, blkSize: nat, lo: int, hi: int)
    ensures Query(v.index, lo, hi) != [] <==> SomeMapped(v.index, lo, hi)
    ensures Query(v.index, lo, hi) == [] ==> !NoticesCut(v, crc, blkSize, RunsIn(v.index, lo, hi))
  {
    if Query(v.index, lo, hi) != [] {
      QueryAt(v.index, lo, hi, 0);
    }
    if l :| lo <= l < hi && l in v.index {
      var k := QueryComplete(v.index, lo, hi, l);
    }
  }
}
