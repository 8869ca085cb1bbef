/** Storing the entries of a write in the index piece by piece: how far it has come, what it has noted, and
    what is left behind if it fails on the way. */
module PieceStore {
  import opened Spans
  import opened VolumeTypes
  import opened FixedIndex
  import opened JournalKey
  import opened VolumeSpec
  import opened LogReplay

  /** The index entries a write stores, in LBA order. */
  function NewValues(w: WriteReq, crc: Data -> Csum): (vs: seq<Value>)
    requires AllFit(w.pieces) && |Flatten(w.pieces)| == |w.data|
    ensures |vs| == |w.data|
  {
    Values(Flatten(w.pieces), Csums(crc, w.data))
  }

  // ---------- storing entries piece by piece ----------

  function Note(v: Value, prior: Option<Value>): BlockInfo {
    BlockInfo(v.blk, v.csum, prior)
  }

  function Prior(idx: Index, l: int): Option<Value> {
    if l in idx then Some(idx[l]) else None
  }

  /** After its put, an LBA is noted with its new entry and with what the index held before the write. */
  ghost predicate Noted(notes: Info, l: int, start: int, vs: seq<Value>, idx: Index)
    requires start <= l < start + |vs|
  {
    l in notes && notes[l] == Note(vs[l - start], Prior(idx, l))
  }

  ghost predicate AllNoted(notes: Info, start: int, vs: seq<Value>, idx: Index, n: nat)
    requires n <= |vs|
  {
    forall l :: start <= l < start + n ==> Noted(notes, l, start, vs, idx)
  }

  /** Before its put, an LBA is noted without a previous entry. */
  ghost predicate Fresh(notes: Info, start: int, vs: seq<Value>, from: nat, to: nat)
    requires to <= |vs|
  {
    forall l :: start + from <= l < start + to ==> l in notes && notes[l] == Note(vs[l - start], None)
  }

  /** The index with the first `n` entries of the write. */
  ghost function Partial(idx: Index, start: int, vs: seq<Value>, n: nat): Index
    requires n <= |vs|
  {
    idx + Overlay(start, vs[..n])
  }

  lemma PartialAt(idx: Index, start: int, vs: seq<Value>, n: nat, l: int)
    requires n <= |vs|
    ensures l in Partial(idx, start, vs, n) <==> start <= l < start + n || l in idx
    ensures start <= l < start + n ==> Partial(idx, start, vs, n)[l] == vs[l - start]
    ensures !(start <= l < start + n) && l in idx ==> Partial(idx, start, vs, n)[l] == idx[l]
  {
    OverlayAt(start, vs[..n], l);
  }

  lemma NothingStored(idx: Index, start: int, vs: seq<Value>)
    ensures Partial(idx, start, vs, 0) == idx
  {
    forall l
      ensures SameAt(Partial(idx, start, vs, 0), idx, l)
    {
      PartialAt(idx, start, vs, 0, l);
    }
    SameIndex(Partial(idx, start, vs, 0), idx);
  }

  /** Putting one piece extends the index by exactly that piece. */
  lemma PieceStored(idx: Index, start: int, vs: seq<Value>, from: nat, to: nat, info: Info)
    requires from <= to <= |vs| && Fresh(info, start, vs, from, to)
    ensures Described(info, start + from, start + to)
    ensures PutRange(Partial(idx, start, vs, from), info, start + from, start + to) == Partial(idx, start, vs, to)
  {
    var before, want := Partial(idx, start, vs, from), Partial(idx, start, vs, to);
    var put := PutRange(before, info, start + from, start + to);
    forall l
      ensures SameAt(put, want, l)
    {
      PutRangeAt(before, info, start + from, start + to, l);
      PartialAt(idx, start, vs, from, l);
      PartialAt(idx, start, vs, to, l);
    }
    SameIndex(put, want);
  }

  /** And the notes: what the put filter captures is what the index held before the whole write. */
  lemma PieceNoted(idx: Index, start: int, vs: seq<Value>, from: nat, to: nat, info: Info)
    requires from <= to <= |vs| && AllNoted(info, start, vs, idx, from) && Fresh(info, start, vs, from, to)
    requires Described(info, start + from, start + to)
    ensures AllNoted(Capture(Partial(idx, start, vs, from), info, start + from, start + to), start, vs, idx, to)
  {
    var captured := Capture(Partial(idx, start, vs, from), info, start + from, start + to);
    forall l | start <= l < start + to
      ensures Noted(captured, l, start, vs, idx)
    {
      assert l < start + from ==> Noted(info, l, start, vs, idx);
      CaptureAt(Partial(idx, start, vs, from), info, start + from, start + to, l);
      PartialAt(idx, start, vs, from, l);
    }
  }

  /** How far a write has come: the first `n` entries are in the index and noted, and nothing else is. */
  ghost predicate Progress(entries: Index, notes: Info, start: int, vs: seq<Value>, idx: Index, n: nat)
    requires n <= |vs|
  {
    && entries == Partial(idx, start, vs, n)
    && AllNoted(notes, start, vs, idx, n)
    && forall l :: l in notes ==> l < start + n
  }

  /** `info` is `notes` with the entries `from .. to` of the write described afresh. */
  ghost predicate Extends(info: Info, notes: Info, start: int, vs: seq<Value>, from: nat, to: nat)
    requires to <= |vs|
  {
    && (forall l :: l in info <==> l in notes || start + from <= l < start + to)
    && (forall l :: l in notes && l in info ==> info[l] == notes[l])
    && Fresh(info, start, vs, from, to)
  }

  lemma PieceProgress(idx: Index, start: int, vs: seq<Value>, from: nat, to: nat, notes: Info, info: Info)
    requires from <= to <= |vs|
    requires Progress(Partial(idx, start, vs, from), notes, start, vs, idx, from)
    requires Extends(info, notes, start, vs, from, to)
    ensures Described(info, start + from, start + to)
    ensures forall l :: start + from <= l < start + to ==> info[l].prior.None?
    ensures Progress(PutRange(Partial(idx, start, vs, from), info, start + from, start + to),
                     Capture(Partial(idx, start, vs, from), info, start + from, start + to), start, vs, idx, to)
  {
    forall l | start <= l < start + from
      ensures Noted(info, l, start, vs, idx)
    {
      assert Noted(notes, l, start, vs, idx);
    }
    PieceStored(idx, start, vs, from, to, info);
    PieceNoted(idx, start, vs, from, to, info);
  }

  /** The same, for the range given by its first and last LBA. */
  lemma AfterPut(before: Index, idx: Index, start: int, vs: seq<Value>, from: nat, to: nat, noted: Info, info: Info,
                 first: int, last: int)
    requires from < to <= |vs| && first == start + from && last + 1 == start + to
    requires Progress(before, noted, start, vs, idx, from) && Extends(info, noted, start, vs, from, to)
    ensures Described(info, first, last + 1)
    ensures Progress(PutRange(before, info, first, last + 1), Capture(before, info, first, last + 1),
                     start, vs, idx, to)
  {
    PieceProgress(idx, start, vs, from, to, noted, info);
  }

  /** `done` is the end of the pieces before the one that contains the failing LBA. */
  ghost predicate FailedPiece(w: WriteReq, done: nat, lba: int)
    requires AllFit(w.pieces)
  {
    exists k :: 0 <= k < |w.pieces| && done == |Flatten(w.pieces[..k])|
                && done <= lba - w.lba < done + w.pieces[k].count
  }

  lemma PieceSize(ps: seq<Piece>, k: nat)
    requires AllFit(ps) && k < |ps|
    ensures Fits(ps[k]) && ps[k].count > 0
    ensures |Flatten(ps[..k + 1])| == |Flatten(ps[..k])| + ps[k].count <= |Flatten(ps)|
  {
    FlattenSnoc(ps, k);
    FlattenMonotone(ps, k + 1);
    assert Fits(ps[k]) && ps[k].count > 0;
  }

  lemma PieceBlock(ps: seq<Piece>, k: nat, i: nat)
    requires AllFit(ps) && k < |ps| && i < ps[k].count
    ensures |Flatten(ps[..k])| + i < |Flatten(ps)| && Fits(ps[k])
    ensures Flatten(ps)[|Flatten(ps[..k])| + i] == Nth(ps[k], i)
  {
    PieceSize(ps, k);
    FlattenSnoc(ps, k);
    FlattenMonotone(ps, k + 1);
    assert Flatten(ps[..k + 1])[|Flatten(ps[..k])| + i] == Blocks(ps[k])[i];
  }

  /** The blocks of piece `p` and the checksums of the data from `done` on are the entries from `done` on. */
  ghost predicate HoldsData(data: seq<Data>, p: Piece, vs: seq<Value>, done: nat, crc: Data -> Csum) {
    && Fits(p) && done + p.count <= |vs| == |data|
    && forall i :: 0 <= i < p.count ==> vs[done + i] == Value(Nth(p, i), crc(data[done + i]))
  }

  lemma DataPiece(w: WriteReq, k: nat, done: nat, crc: Data -> Csum)
    requires AllFit(w.pieces) && |Flatten(w.pieces)| == |w.data| && k < |w.pieces| && done == |Flatten(w.pieces[..k])|
    ensures HoldsData(w.data, w.pieces[k], NewValues(w, crc), done, crc)
  {
    var p, vs := w.pieces[k], NewValues(w, crc);
    PieceSize(w.pieces, k);
    forall i | 0 <= i < p.count
      ensures vs[done + i] == Value(Nth(p, i), crc(w.data[done + i]))
    {
      PieceBlock(w.pieces, k, i);
    }
  }

  /** The key bytes from `at` on hold the checksums of the entries of piece `p`, which start at `done`. */
  ghost predicate HoldsCsums(key: seq<Byte>, at: nat, p: Piece, vs: seq<Value>, done: nat) {
    && Fits(p) && done + p.count <= |vs| && at + CSUM_SIZE * p.count <= |key|
    && forall i :: 0 <= i < p.count ==> vs[done + i] == Value(Nth(p, i), CsumAt(key, at + CSUM_SIZE * i))
  }

  lemma EntryPiece(e: LogEntry, k: nat, done: nat)
    requires WellFormed(e) && k < |e.pieces| && done == |Flatten(e.pieces[..k])|
    ensures HoldsCsums(e.key, HEADER_SIZE + CSUM_SIZE * done, e.pieces[k], EntryValues(e), done)
  {
    EntryBounds(e, k, done);
    forall i | 0 <= i < e.pieces[k].count
      ensures EntryValues(e)[done + i]
              == Value(Nth(e.pieces[k], i), CsumAt(e.key, HEADER_SIZE + CSUM_SIZE * done + CSUM_SIZE * i))
    {
      EntryCell(e, k, done, i);
    }
  }

  lemma EntryBounds(e: LogEntry, k: nat, done: nat)
    requires WellFormed(e) && k < |e.pieces| && done == |Flatten(e.pieces[..k])|
    ensures Fits(e.pieces[k]) && done + e.pieces[k].count <= |EntryValues(e)|
    ensures HEADER_SIZE + CSUM_SIZE * done + CSUM_SIZE * e.pieces[k].count <= |e.key|
  {
    PieceSize(e.pieces, k);
  }

  lemma EntryCell(e: LogEntry, k: nat, done: nat, i: nat)
    requires WellFormed(e) && k < |e.pieces| && done == |Flatten(e.pieces[..k])| && i < e.pieces[k].count
    ensures Fits(e.pieces[k]) && done + i < |EntryValues(e)|
    ensures HEADER_SIZE + CSUM_SIZE * done + CSUM_SIZE * i + CSUM_SIZE <= |e.key|
    ensures EntryValues(e)[done + i]
            == Value(Nth(e.pieces[k], i), CsumAt(e.key, HEADER_SIZE + CSUM_SIZE * done + CSUM_SIZE * i))
  {
    PieceBlock(e.pieces, k, i);
  }

  /** What is left allocated when every list of old blocks has been freed. */
  ghost function FreeAll(alloc: set<Blk>, olds: seq<seq<Blk>>): set<Blk>
    decreases |olds|
  {
    if olds == [] then alloc else FreeAll(alloc, olds[..|olds| - 1]) - Elems(olds[|olds| - 1])
  }

  /** No block comes back, and exactly the listed ones go. */
  lemma {:induction false} FreeAllAt(alloc: set<Blk>, olds: seq<seq<Blk>>, b: Blk)
    ensures b in FreeAll(alloc, olds) <==> b in alloc && forall i :: 0 <= i < |olds| ==> b !in olds[i]
    decreases |olds|
  {
    if olds != [] {
      var n := |olds| - 1;
      FreeAllAt(alloc, olds[..n], b);
      assert forall i :: 0 <= i < n ==> olds[..n][i] == olds[i];
    }
  }

  /** The blocks that a replay takes for the old blocks of a log, record by record. */
  ghost function OldsOf(es: seq<LogEntry>): (olds: seq<seq<Blk>>)
    requires AllWellFormed(es)
    ensures |olds| == |es|
  {
    seq(|es|, i requires 0 <= i < |es| => ReplayOlds(es[i]))
  }

  lemma OldsOfSnoc(es: seq<LogEntry>, e: LogEntry)
    requires AllWellFormed(es) && WellFormed(e)
    ensures AllWellFormed(es + [e]) && OldsOf(es + [e]) == OldsOf(es) + [ReplayOlds(e)]
  {
  }

  lemma FreeAllSnoc(alloc: set<Blk>, olds: seq<seq<Blk>>, bs: seq<Blk>)
    ensures FreeAll(alloc, olds + [bs]) == FreeAll(alloc, olds) - Elems(bs)
  {
    assert (olds + [bs])[..|olds|] == olds;
  }

  /** Index and allocated blocks after replaying records `k .. i` over what was found. */
  ghost predicate Replayed(entries: Index, alloc: set<Blk>, found: Index, was: set<Blk>, log: seq<LogEntry>,
                           k: nat, i: nat)
    requires AllWellFormed(log) && k <= i <= |log|
  {
    entries == ApplyLog(found, log[k..i]) && alloc == FreeAll(was, OldsOf(log[k..i]))
  }

  lemma ReplayedMore(entries: Index, alloc: set<Blk>, found: Index, was: set<Blk>, log: seq<LogEntry>, k: nat, i: nat)
    requires AllWellFormed(log) && k <= i < |log| && Replayed(entries, alloc, found, was, log, k, i)
    ensures WellFormed(log[i])
    ensures Replayed(ApplyEntry(entries, log[i]), alloc - Elems(ReplayOlds(log[i])), found, was, log, k, i + 1)
  {
    assert log[k..i + 1] == log[k..i] + [log[i]];
    ApplyLogSnoc(found, log[k..i], log[i]);
    OldsOfSnoc(log[k..i], log[i]);
    FreeAllSnoc(was, OldsOf(log[k..i]), ReplayOlds(log[i]));
  }

  /** A record that stores LBA `l`, and the block it puts there. */
  ghost predicate Puts(e: LogEntry, l: int, b: Blk)
    requires WellFormed(e)
  {
    Covers(e, l) && EntryValues(e)[l - StartLba(e.key)].blk == b
  }

  /** Block `b` is at LBA `l` after a replay: the last record that stores `l` put it there, or no record stores
      `l` and it was found there. */
  ghost predicate EndsAt(found: Index, es: seq<LogEntry>, l: int, b: Blk)
    requires AllWellFormed(es)
    decreases |es|
  {
    if es == [] then l in found && found[l].blk == b
    else if Covers(es[|es| - 1], l) then Puts(es[|es| - 1], l, b)
    else EndsAt(found, es[..|es| - 1], l, b)
  }

  lemma {:induction false} EndsAtExact(found: Index, es: seq<LogEntry>, l: int, b: Blk)
    requires AllWellFormed(es)
    ensures EndsAt(found, es, l, b) <==> l in ApplyLog(found, es) && ApplyLog(found, es)[l].blk == b
    decreases |es|
  {
    if es != [] {
      var n := |es| - 1;
      EndsAtExact(found, es[..n], l, b);
      OverlayAt(StartLba(es[n].key), EntryValues(es[n]), l);
    }
  }

  /** A replay that starts with every block it will map allocated ends so if and only if no replayed record
      takes for old a block that a later record, or an entry found and not stored again, leaves at some LBA. */
  lemma ReplayKeepsMappedExact(found: Index, alloc: set<Blk>, es: seq<LogEntry>)
    requires AllWellFormed(es)
    requires forall l :: l in ApplyLog(found, es) ==> ApplyLog(found, es)[l].blk in alloc
    ensures (forall l :: l in ApplyLog(found, es) ==> ApplyLog(found, es)[l].blk in FreeAll(alloc, OldsOf(es)))
            <==> forall l, i :: l in ApplyLog(found, es) && 0 <= i < |es| ==>
                                  !ReusedBy(found, es, l, i, ApplyLog(found, es)[l].blk)
  {
    var final, olds := ApplyLog(found, es), OldsOf(es);
    forall l | l in final
      ensures final[l].blk in FreeAll(alloc, olds)
              <==> forall i :: 0 <= i < |es| ==> !ReusedBy(found, es, l, i, final[l].blk)
    {
      EndsAtExact(found, es, l, final[l].blk);
      FreeAllAt(alloc, olds, final[l].blk);
      forall i | 0 <= i < |es|
        ensures final[l].blk in olds[i] <==> ReusedBy(found, es, l, i, final[l].blk)
      {
      }
    }
  }

  /** Record `i` takes for old the block that LBA `l` ends up with. */
  ghost predicate ReusedBy(found: Index, es: seq<LogEntry>, l: int, i: nat, b: Blk)
    requires AllWellFormed(es) && i < |es|
  {
    EndsAt(found, es, l, b) && b in ReplayOlds(es[i])
  }

  /** One more block described. */
  lemma DescribeOne(info: Info, notes: Info, start: int, vs: seq<Value>, from: nat, to: nat, v: Value)
    requires from <= to < |vs| && vs[to] == v && Extends(info, notes, start, vs, from, to)
    requires forall l :: l in notes ==> l < start + from
    ensures Extends(info[start + to := Note(v, None)], notes, start, vs, from, to + 1)
  {
  }

  // ---------- a write that fails in the index ----------

  /** The volume after a write that put only its first `n` entries: all its blocks stay allocated, none of
      the old ones is freed, and nothing is journalled. */
  ghost function Torn(v: Vol, w: WriteReq, crc: Data -> Csum, n: nat): Vol
    requires AllFit(w.pieces) && |Flatten(w.pieces)| == |w.data| && n <= |w.data|
  {
    Vol(Partial(v.index, w.lba, NewValues(w, crc), n),
        Store(v.disk, Flatten(w.pieces), w.data),
        v.alloc + Elems(Flatten(w.pieces)))
  }

  ghost predicate IsTorn(v: Vol, w: WriteReq, crc: Data -> Csum, n: nat, t: Vol) {
    Admissible(v, w) && n <= |w.data| && t == Torn(v, w, crc, n)
  }

  /** An LBA of a torn volume: new below `n`, as before above. */
  lemma TornCell(v: Vol, w: WriteReq, crc: Data -> Csum, n: nat, t: Vol, l: int)
    requires VolInv(v, crc) && IsTorn(v, w, crc, n, t)
    ensures l in t.index <==> w.lba <= l < w.lba + n || l in v.index
    ensures w.lba <= l < w.lba + n ==>
              && t.index[l].blk == Flatten(w.pieces)[l - w.lba] && t.index[l].blk in t.disk
              && t.disk[t.index[l].blk] == w.data[l - w.lba] && t.index[l].csum == crc(w.data[l - w.lba])
    ensures !(w.lba <= l < w.lba + n) && l in v.index ==>
              t.index[l] == v.index[l] && t.index[l].blk in t.disk && t.disk[t.index[l].blk] == v.disk[v.index[l].blk]
  {
    PartialAt(v.index, w.lba, NewValues(w, crc), n, l);
    StoreAt(v.disk, Flatten(w.pieces), w.data);
    if l in v.index {
      assert v.index[l].blk in v.alloc && v.index[l].blk in v.disk;
    }
  }

  lemma TornInv(v: Vol, w: WriteReq, crc: Data -> Csum, n: nat, t: Vol)
    requires VolInv(v, crc) && IsTorn(v, w, crc, n, t)
    ensures VolInv(t, crc)
  {
    forall l | l in t.index
      ensures t.index[l].blk in t.disk && t.index[l].blk in t.alloc && crc(t.disk[t.index[l].blk]) == t.index[l].csum
    {
      TornCell(v, w, crc, n, t, l);
      if w.lba <= l < w.lba + n {
        assert t.index[l].blk in Flatten(w.pieces);
      }
    }
    TornInjective(v, w, crc, n, t);
  }

  /** A torn volume is still consistent, but it shows the first `n` blocks of the failed write. */
  lemma TornVolume(v: Vol, w: WriteReq, crc: Data -> Csum, n: nat, t: Vol)
    requires VolInv(v, crc) && IsTorn(v, w, crc, n, t)
    ensures VolInv(t, crc)
    ensures Contents(t) == Contents(v) + Overlay(w.lba, w.data[..n])
  {
    TornInv(v, w, crc, n, t);
    forall l
      ensures CellShows(Contents(t), Contents(v), w.lba, w.data[..n], l)
    {
      TornCell(v, w, crc, n, t, l);
    }
    CellsMakeContents(Contents(t), Contents(v), w.lba, w.data[..n]);
  }

  /** At `l`, `c'` is `c` overlaid with `shown` from `start` on. */
  ghost predicate CellShows(c': map<int, Data>, c: map<int, Data>, start: int, shown: seq<Data>, l: int) {
    && (l in c' <==> start <= l < start + |shown| || l in c)
    && (l in c' ==> c'[l] == if start <= l < start + |shown| then shown[l - start] else c[l])
  }

  lemma CellsMakeContents(c': map<int, Data>, c: map<int, Data>, start: int, shown: seq<Data>)
    requires forall l :: CellShows(c', c, start, shown, l)
    ensures c' == c + Overlay(start, shown)
  {
    forall l
      ensures l in c' <==> l in c + Overlay(start, shown)
      ensures l in c' ==> c'[l] == (c + Overlay(start, shown))[l]
    {
      assert CellShows(c', c, start, shown, l);
      OverlayAt(start, shown, l);
    }
  }

  /** A write that fails in the index leaves the index alone if and only if the failing LBA lies in its first
      piece. */
  lemma FailureLeavesIndexExact(v: Vol, w: WriteReq, crc: Data -> Csum, n: nat, lba: int)
    requires VolInv(v, crc) && Admissible(v, w) && n <= |w.data| && FailedPiece(w, n, lba)
    ensures |w.pieces| > 0
    ensures Torn(v, w, crc, n).index == v.index <==> lba - w.lba < w.pieces[0].count
  {
    var k :| 0 <= k < |w.pieces| && n == |Flatten(w.pieces[..k])| && n <= lba - w.lba < n + w.pieces[k].count;
    FirstPieceStarts(w.pieces, k);
    if k == 0 {
      NothingStored(v.index, w.lba, NewValues(w, crc));
    } else {
      TornCell(v, w, crc, n, Torn(v, w, crc, n), w.lba);
      assert Flatten(w.pieces)[0] in Flatten(w.pieces);
      assert w.lba in v.index ==> v.index[w.lba].blk in v.alloc;
    }
  }

  lemma {:induction false} FirstPieceStarts(ps: seq<Piece>, k: nat)
    requires AllFit(ps) && k < |ps|
    ensures k == 0 ==> |Flatten(ps[..k])| == 0
    ensures k > 0 ==> |Flatten(ps[..k])| >= ps[0].count > 0
    decreases k
  {
    if k > 0 {
      PieceSize(ps, k - 1);
      FirstPieceStarts(ps, k - 1);
    }
  }

  lemma TornInjective(v: Vol, w: WriteReq, crc: Data -> Csum, n: nat, t: Vol)
    requires VolInv(v, crc) && IsTorn(v, w, crc, n, t)
    ensures Injective(t.index)
  {
    forall l, m | l in t.index && m in t.index && l != m
      ensures t.index[l].blk != t.index[m].blk
    {
      TornCell(v, w, crc, n, t, l);
      TornCell(v, w, crc, n, t, m);
      TornBlock(v, w, l, n);
      TornBlock(v, w, m, n);
    }
  }

  lemma TornBlock(v: Vol, w: WriteReq, l: int, n: nat)
    requires Admissible(v, w) && n <= |w.data|
    ensures w.lba <= l < w.lba + n ==> Flatten(w.pieces)[l - w.lba] !in v.alloc
  {
    if w.lba <= l < w.lba + n {
      assert Flatten(w.pieces)[l - w.lba] in Flatten(w.pieces);
    }
  }

  /** With all entries put, only the old blocks are still to be freed. */
  lemma TornAll(v: Vol, w: WriteReq, crc: Data -> Csum)
    requires Admissible(v, w)
    ensures Commit(v, w, crc)
            == Torn(v, w, crc, |w.data|).(alloc := v.alloc + Elems(Flatten(w.pieces)) - Elems(Freed(v.index, w)))
  {
    assert NewValues(w, crc)[..|w.data|] == NewValues(w, crc);
  }
}
