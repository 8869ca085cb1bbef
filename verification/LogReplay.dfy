/** Replay of the journal after a crash: every record from the replay point on is decoded from its key
    bytes and put into the index again. */
module LogReplay {
  import opened Spans
  import opened VolumeTypes
  import opened JournalKey
  import opened VolumeSpec
  import opened Widths

  /** A journal record as the log store returns it: the blocks written, and the key bytes. */
  datatype LogEntry = LogEntry(pieces: seq<Piece>, key: seq<Byte>)

  /** The key is long enough for what it announces, and there is a checksum for every block. */
  predicate WellFormed(e: LogEntry) {
    && AllFit(e.pieces)
    && |e.key| >= HEADER_SIZE
    && |Flatten(e.pieces)| <= NumLbas(e.key)
    && |e.key| >= OldOffset(e) + BLK_SIZE * NumOld(e.key)
  }

  /** Where the old blocks start: behind the header and one checksum per LBA of the write. */
  function OldOffset(e: LogEntry): nat
    requires |e.key| >= HEADER_SIZE
  {
    HEADER_SIZE + CSUM_SIZE * NumLbas(e.key)
  }

  /** Where a replay takes them to start: behind one checksum per block it has put into the index. */
  function ReplayOffset(e: LogEntry): nat
    requires AllFit(e.pieces)
  {
    HEADER_SIZE + CSUM_SIZE * |Flatten(e.pieces)|
  }

  /** The index entries a record stands for, in LBA order. */
  function EntryValues(e: LogEntry): (vs: seq<Value>)
    requires WellFormed(e)
    ensures |vs| == |Flatten(e.pieces)|
    ensures forall i :: 0 <= i < |vs| ==>
              vs[i] == Value(Flatten(e.pieces)[i], CsumAt(e.key, HEADER_SIZE + CSUM_SIZE * i))
  {
    var blks := Flatten(e.pieces);
    seq(|blks|, i requires 0 <= i < |blks| => Value(blks[i], CsumAt(e.key, HEADER_SIZE + CSUM_SIZE * i)))
  }

  /** The old blocks of a record, read from `at` on. */
  function OldsFrom(e: LogEntry, at: nat): (bs: seq<Blk>)
    requires |e.key| >= HEADER_SIZE && at + BLK_SIZE * NumOld(e.key) <= |e.key|
    ensures |bs| == NumOld(e.key)
    ensures forall j :: 0 <= j < |bs| ==> bs[j] == OldAt(e.key, at + BLK_SIZE * j)
  {
    seq(NumOld(e.key), j requires 0 <= j < NumOld(e.key) => OldAt(e.key, at + BLK_SIZE * j))
  }

  /** The old blocks a record names. */
  function EntryOlds(e: LogEntry): (bs: seq<Blk>)
    requires WellFormed(e)
  {
    OldsFrom(e, OldOffset(e))
  }

  /** The blocks a replay takes for them. */
  function ReplayOlds(e: LogEntry): (bs: seq<Blk>)
    requires WellFormed(e)
  {
    OldsFrom(e, ReplayOffset(e))
  }

  ghost function ApplyEntry(idx: Index, e: LogEntry): Index
    requires WellFormed(e)
  {
    idx + Overlay(StartLba(e.key), EntryValues(e))
  }

  /** The checksums of a write's record: one per LBA, and zero where the write has no block. */
  function RecordCsums(w: WriteReq, crc: Data -> Csum): (cs: seq<Csum>)
    requires AllFit(w.pieces) && |Flatten(w.pieces)| <= |w.data|
    ensures |cs| == |w.data|
    ensures forall i :: 0 <= i < |w.data| ==> cs[i] == if i < |Flatten(w.pieces)| then crc(w.data[i]) else 0
  {
    seq(|w.data|, i requires 0 <= i < |w.data| => if i < |Flatten(w.pieces)| then crc(w.data[i]) else 0)
  }

  /** The record of a write. */
  function RecordOf(w: WriteReq, idx: Index, crc: Data -> Csum): LogEntry
    requires w.lba >= 0 && AllFit(w.pieces) && |Flatten(w.pieces)| <= |w.data|
  {
    LogEntry(w.pieces, Key(w.lba, RecordCsums(w, crc), Olds(idx, w.order)))
  }

  /** The write can be recorded, and the part of it that has blocks can be committed. */
  ghost predicate Recordable(v: Vol, w: WriteReq) {
    && AllFit(w.pieces) && |Flatten(w.pieces)| <= |w.data| < TWO32
    && Admissible(v, Portion(w))
  }

  lemma RecordHeader(w: WriteReq, v: Vol, crc: Data -> Csum)
    requires Recordable(v, w)
    ensures var e := RecordOf(w, v.index, crc);
            && WellFormed(e) && StartLba(e.key) == w.lba && NumLbas(e.key) == |w.data|
            && NumOld(e.key) == |Olds(v.index, w.order)| % TWO16
  {
    HeaderRoundTrip(w.lba, RecordCsums(w, crc), Olds(v.index, w.order));
  }

  lemma RecordValues(w: WriteReq, v: Vol, crc: Data -> Csum, e: LogEntry)
    requires Recordable(v, w) && e == RecordOf(w, v.index, crc) && WellFormed(e)
    ensures EntryValues(e) == Values(Flatten(w.pieces), Csums(crc, Portion(w).data))
  {
    forall i | 0 <= i < |Flatten(w.pieces)|
      ensures EntryValues(e)[i] == Values(Flatten(w.pieces), Csums(crc, Portion(w).data))[i]
    {
      CsumRoundTrip(w.lba, RecordCsums(w, crc), Olds(v.index, w.order), i);
    }
  }

  lemma RecordOlds(w: WriteReq, v: Vol, crc: Data -> Csum, e: LogEntry)
    requires Recordable(v, w) && e == RecordOf(w, v.index, crc) && WellFormed(e)
    requires NumLbas(e.key) == |w.data| && NumOld(e.key) == |Olds(v.index, w.order)| % TWO16
    ensures EntryOlds(e) == Freed(v.index, Portion(w))
  {
    OldsDecode(e, w.lba, RecordCsums(w, crc), Olds(v.index, w.order));
  }

  lemma OldsDecode(e: LogEntry, lba: nat, csums: seq<Csum>, olds: seq<Blk>)
    requires WellFormed(e) && e.key == Key(lba, csums, olds)
    requires NumLbas(e.key) == |csums| && NumOld(e.key) == |olds| % TWO16
    ensures EntryOlds(e) == olds[..|olds| % TWO16]
  {
    forall j | 0 <= j < NumOld(e.key)
      ensures EntryOlds(e)[j] == olds[j]
    {
      OldRoundTrip(lba, csums, olds, j);
    }
  }

  /** A record says what the write did: decoded, it names the LBAs, blocks and checksums of the part that was
      stored, and exactly the old blocks that the commit frees. */
  lemma RecordRoundTrip(w: WriteReq, v: Vol, crc: Data -> Csum)
    requires Recordable(v, w)
    ensures var e := RecordOf(w, v.index, crc);
            && WellFormed(e) && StartLba(e.key) == w.lba
            && EntryValues(e) == Values(Flatten(w.pieces), Csums(crc, Portion(w).data))
            && EntryOlds(e) == Freed(v.index, Portion(w))
            && ApplyEntry(v.index, e) == Commit(v, Portion(w), crc).index
  {
    RecordHeader(w, v, crc);
    RecordValues(w, v, crc, RecordOf(w, v.index, crc));
    RecordOlds(w, v, crc, RecordOf(w, v.index, crc));
  }

  /** The live commit and the replay find the old blocks at the same place if and only if the write got all its
      blocks. */
  lemma OffsetsAgreeExact(w: WriteReq, v: Vol, crc: Data -> Csum)
    requires Recordable(v, w)
    ensures ReplayOffset(RecordOf(w, v.index, crc)) == OldOffset(RecordOf(w, v.index, crc)) <==> Portion(w) == w
  {
    RecordHeader(w, v, crc);
    assert w.data[..|w.data|] == w.data;
  }

  /** So for a write that got all its blocks, a replay frees exactly the blocks that the commit freed; in general it
      takes the eight bytes at each position behind one checksum per stored block for a block id. */
  lemma ReplayOldsExact(w: WriteReq, v: Vol, crc: Data -> Csum)
    requires Recordable(v, w)
    ensures var e := RecordOf(w, v.index, crc);
            && WellFormed(e) && |ReplayOlds(e)| == |Olds(v.index, w.order)| % 0x1_0000
            && (forall j :: 0 <= j < |ReplayOlds(e)| ==>
                              ReplayOlds(e)[j] == OldAt(e.key, 16 + 2 * |Flatten(w.pieces)| + 8 * j))
            && (Portion(w) == w ==> ReplayOlds(e) == EntryOlds(e) == Freed(v.index, w))
  {
    var e := RecordOf(w, v.index, crc);
    RecordHeader(w, v, crc);
    OffsetsAgreeExact(w, v, crc);
    RecordOlds(w, v, crc, e);
    ReplayOldsAt(e);
  }

  lemma ReplayOldsAt(e: LogEntry)
    requires WellFormed(e)
    ensures |ReplayOlds(e)| == NumOld(e.key)
    ensures forall j :: 0 <= j < |ReplayOlds(e)| ==>
                          ReplayOlds(e)[j] == OldAt(e.key, 16 + 2 * |Flatten(e.pieces)| + 8 * j)
    ensures ReplayOffset(e) == OldOffset(e) ==> ReplayOlds(e) == EntryOlds(e)
  {
  }

  // ---------- whole logs ----------

  ghost predicate AllWellFormed(es: seq<LogEntry>) {
    forall i :: 0 <= i < |es| ==> WellFormed(es[i])
  }

  ghost function ApplyLog(idx: Index, es: seq<LogEntry>): Index
    requires AllWellFormed(es)
    decreases |es|
  {
    if es == [] then idx else ApplyEntry(ApplyLog(idx, es[..|es| - 1]), es[|es| - 1])
  }

  ghost predicate Covers(e: LogEntry, l: int)
    requires WellFormed(e)
  {
    StartLba(e.key) <= l < StartLba(e.key) + |EntryValues(e)|
  }

  /** Some record of the log stores this LBA. */
  ghost predicate Touches(es: seq<LogEntry>, l: int)
    requires AllWellFormed(es)
    decreases |es|
  {
    es != [] && (Covers(es[|es| - 1], l) || Touches(es[..|es| - 1], l))
  }

  ghost predicate SameAt(a: Index, b: Index, l: int) {
    (l in a <==> l in b) && (l in a ==> a[l] == b[l])
  }

  lemma ApplyLogSnoc(idx: Index, es: seq<LogEntry>, e: LogEntry)
    requires AllWellFormed(es) && WellFormed(e)
    ensures AllWellFormed(es + [e]) && ApplyLog(idx, es + [e]) == ApplyEntry(ApplyLog(idx, es), e)
  {
    AppendLast(es, [e]);
    assert es + [] == es;
  }

  lemma {:induction false} ApplyLogAppend(idx: Index, es: seq<LogEntry>, fs: seq<LogEntry>)
    requires AllWellFormed(es) && AllWellFormed(fs)
    ensures AllWellFormed(es + fs)
    ensures ApplyLog(idx, es + fs) == ApplyLog(ApplyLog(idx, es), fs)
    decreases |fs|
  {
    if fs == [] {
      assert es + fs == es;
    } else {
      var n := |fs| - 1;
      ApplyLogAppend(idx, es, fs[..n]);
      AppendLast(es, fs);
      ApplyLogSnoc(idx, es + fs[..n], fs[n]);
    }
  }

  /** A replay decides every LBA it touches and leaves every other LBA alone. */
  lemma {:induction false} ApplyLogAt(a: Index, b: Index, es: seq<LogEntry>, l: int)
    requires AllWellFormed(es)
    ensures SameAt(ApplyLog(a, es), ApplyLog(b, es), l) <==> Touches(es, l) || SameAt(a, b, l)
    ensures !Touches(es, l) ==> SameAt(ApplyLog(a, es), a, l)
    decreases |es|
  {
    if es != [] {
      var n := |es| - 1;
      ApplyLogAt(a, b, es[..n], l);
      OverlayAt(StartLba(es[n].key), EntryValues(es[n]), l);
    }
  }

  /** Replay convergence.  For every log, every replay point `k` and every index found after the crash,
      replaying from `k` gives the index of the whole log applied once if and only if the index found
      agrees with the first `k` records wherever the replayed records do not write. */
  lemma ReplayConverges(log: seq<LogEntry>, k: nat, found: Index)
    requires AllWellFormed(log) && k <= |log|
    ensures ApplyLog(found, log[k..]) == ApplyLog(map[], log)
            <==> forall l :: Touches(log[k..], l) || SameAt(found, ApplyLog(map[], log[..k]), l)
  {
    var base, tail := ApplyLog(map[], log[..k]), log[k..];
    assert log[..k] + tail == log;
    ApplyLogAppend(map[], log[..k], tail);
    forall l
      ensures SameAt(ApplyLog(found, tail), ApplyLog(base, tail), l) <==> Touches(tail, l) || SameAt(found, base, l)
    {
      ApplyLogAt(found, base, tail, l);
    }
    SameIndex(ApplyLog(found, tail), ApplyLog(base, tail));
  }

  lemma SameIndex(a: Index, b: Index)
    ensures a == b <==> forall l :: SameAt(a, b, l)
  {
    if forall l :: SameAt(a, b, l) {
      forall l
        ensures (l in a <==> l in b) && (l in a ==> a[l] == b[l])
      {
        assert SameAt(a, b, l);
      }
    }
  }

  /** At this LBA the index found reflects the log up to some point no earlier than `k`. */
  ghost predicate FlushedSomewhere(log: seq<LogEntry>, k: nat, found: Index, l: int)
    requires AllWellFormed(log) && k <= |log|
  {
    exists p :: k <= p <= |log| && SameAt(found, ApplyLog(map[], log[..p]), l)
  }

  /** So a torn flush does no harm: if each LBA of the index found reflects the log up to some point of its
      own, no earlier than the replay point, replay restores the index of the whole log. */
  lemma TornFlushIsRepaired(log: seq<LogEntry>, k: nat, found: Index)
    requires AllWellFormed(log) && k <= |log|
    requires forall l :: FlushedSomewhere(log, k, found, l)
    ensures ApplyLog(found, log[k..]) == ApplyLog(map[], log)
  {
    forall l
      ensures Touches(log[k..], l) || SameAt(found, ApplyLog(map[], log[..k]), l)
    {
      assert FlushedSomewhere(log, k, found, l);
      var p :| k <= p <= |log| && SameAt(found, ApplyLog(map[], log[..p]), l);
      LaterPointAgrees(log, k, p, l);
    }
    ReplayConverges(log, k, found);
  }

  /** Between two points of the log an LBA changes only if a record between them stores it. */
  lemma LaterPointAgrees(log: seq<LogEntry>, k: nat, p: nat, l: int)
    requires AllWellFormed(log) && k <= p <= |log|
    ensures Touches(log[k..], l) || SameAt(ApplyLog(map[], log[..p]), ApplyLog(map[], log[..k]), l)
  {
    var base, mid := ApplyLog(map[], log[..k]), log[k..p];
    assert log[..k] + mid == log[..p];
    assert log[k..] == mid + log[p..];
    ApplyLogAppend(map[], log[..k], mid);
    ApplyLogAt(base, base, mid, l);
    if Touches(mid, l) {
      TouchesMore(mid, log[p..], l);
    }
  }

  lemma {:induction false} TouchesMore(es: seq<LogEntry>, fs: seq<LogEntry>, l: int)
    requires AllWellFormed(es) && AllWellFormed(fs) && Touches(es, l)
    ensures AllWellFormed(es + fs) && Touches(es + fs, l)
    decreases |fs|
  {
    if fs == [] {
      assert es + fs == es;
    } else {
      var n := |fs| - 1;
      TouchesMore(es, fs[..n], l);
      AppendLast(es, fs);
    }
  }
}
