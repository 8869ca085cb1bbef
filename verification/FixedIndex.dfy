/** The fixed index table: one put per LBA, the previous entry captured by the put filter, and a
    rollback of the puts already made when one fails. */
module FixedIndex {
  import opened Spans
  import opened VolumeTypes

  /** The entries a write wants to store for LBAs `lo .. hi`. */
  ghost predicate Described(info: Info, lo: int, hi: int) {
    forall l :: lo <= l < hi ==> l in info
  }

  function NewValue(info: Info, l: int): Value
    requires l in info
  {
    Value(info[l].newBlk, info[l].newCsum)
  }

  /** The index after the puts for `lo .. hi`. */
  function PutRange(idx: Index, info: Info, lo: int, hi: int): Index
    requires Described(info, lo, hi)
    decreases hi - lo
  {
    if hi <= lo then idx else PutRange(idx, info, lo, hi - 1)[hi - 1 := NewValue(info, hi - 1)]
  }

  /** The write's notes after the filter has seen the previous entries of `lo .. hi`. */
  function Capture(idx: Index, info: Info, lo: int, hi: int): (out: Info)
    requires Described(info, lo, hi)
    ensures out.Keys == info.Keys
    decreases hi - lo
  {
    if hi <= lo then info
    else
      var m := Capture(idx, info, lo, hi - 1);
      if hi - 1 in idx then m[hi - 1 := m[hi - 1].(prior := Some(idx[hi - 1]))] else m
  }

  /** What the rollback of `lo .. hi` leaves: LBAs without a noted previous entry are removed, and an LBA
      that the write knows nothing about counts as having none. */
  function Restore(idx: Index, info: Info, lo: int, hi: int): Index
    decreases hi - lo
  {
    if hi <= lo then idx
    else
      var m := Restore(idx, info, lo, hi - 1);
      if hi - 1 in info && info[hi - 1].prior.Some? then m[hi - 1 := info[hi - 1].prior.value] else m - {hi - 1}
  }

  lemma {:induction false} PutRangeAt(idx: Index, info: Info, lo: int, hi: int, l: int)
    requires Described(info, lo, hi)
    ensures l in PutRange(idx, info, lo, hi) <==> l in idx || lo <= l < hi
    ensures lo <= l < hi ==> PutRange(idx, info, lo, hi)[l] == Value(info[l].newBlk, info[l].newCsum)
    ensures l in idx && !(lo <= l < hi) ==> PutRange(idx, info, lo, hi)[l] == idx[l]
    decreases hi - lo
  {
    if lo < hi {
      PutRangeAt(idx, info, lo, hi - 1, l);
    }
  }

  lemma {:induction false} CaptureAt(idx: Index, info: Info, lo: int, hi: int, l: int)
    requires Described(info, lo, hi) && l in info
    ensures Capture(idx, info, lo, hi)[l] ==
              if lo <= l < hi && l in idx then info[l].(prior := Some(idx[l])) else info[l]
    decreases hi - lo
  {
    if lo < hi {
      CaptureAt(idx, info, lo, hi - 1, l);
    }
  }

  lemma {:induction false} RestoreAt(idx: Index, info: Info, lo: int, hi: int, l: int)
    ensures var noted := l in info && info[l].prior.Some?;
            && (l in Restore(idx, info, lo, hi) <==> if lo <= l < hi then noted else l in idx)
            && (l in Restore(idx, info, lo, hi) ==>
                  Restore(idx, info, lo, hi)[l] == if lo <= l < hi then info[l].prior.value else idx[l])
    decreases hi - lo
  {
    if lo < hi {
      RestoreAt(idx, info, lo, hi - 1, l);
    }
  }

  /** Rollback undoes the puts: for any mix of overwritten and new LBAs the index is back where it was. */
  lemma RollbackUndoes(idx: Index, info: Info, lo: int, hi: int)
    requires Described(info, lo, hi)
    requires forall l :: lo <= l < hi ==> info[l].prior.None?
    ensures Restore(PutRange(idx, info, lo, hi), Capture(idx, info, lo, hi), lo, hi) == idx
  {
    var put, notes := PutRange(idx, info, lo, hi), Capture(idx, info, lo, hi);
    forall l
      ensures l in Restore(put, notes, lo, hi) <==> l in idx
      ensures l in idx ==> Restore(put, notes, lo, hi)[l] == idx[l]
    {
      RestoreAt(put, notes, lo, hi, l);
      PutRangeAt(idx, info, lo, hi, l);
      if l in info {
        CaptureAt(idx, info, lo, hi, l);
      }
    }
  }

  /** The rollback bound is the failing LBA minus one in unsigned arithmetic.  For a failure at LBA 0 the
      loop therefore has no last iteration; after any number `n` of iterations it has removed every
      entry below `n`, whether or not this write had anything to do with it. */
  lemma RunawayRollbackErases(idx: Index, info: Info, n: nat)
    requires forall l :: l in info ==> info[l].prior.None?
    ensures forall l :: l in Restore(idx, info, 0, n) <==> l in idx && !(0 <= l < n)
  {
    forall l
      ensures l in Restore(idx, info, 0, n) <==> l in idx && !(0 <= l < n)
    {
      RestoreAt(idx, info, 0, n, l);
    }
  }

  /** `RunsAway` stands for the rollback loop that never returns. */
  datatype PutOutcome = Stored | RolledBack | RunsAway

  /** The entries of `lo .. hi` in LBA order, as a range query returns them. */
  function Query(idx: Index, lo: int, hi: int): seq<(int, Value)>
    decreases hi - lo
  {
    if hi <= lo then []
    else Query(idx, lo, hi - 1) + if hi - 1 in idx then [(hi - 1, idx[hi - 1])] else []
  }

  class FixedIndexTable {
    var entries: Index

    constructor ()
      ensures entries == map[]
    {
      entries := map[];
    }

    /** All or nothing: either every LBA of the range is stored and the previous entries are noted, or a
        put failed and the index is what it was before.  The single exception is a failure at LBA 0. */
    method WriteToIndex(start: int, end: int, info: Info, failAt: Option<int>) returns (notes: Info, out: PutOutcome)
      requires 0 <= start <= end
      requires Described(info, start, end + 1)
      requires forall l :: start <= l <= end ==> info[l].prior.None?
      modifies this
      ensures out.Stored? <==> failAt.None? || !(start <= failAt.value <= end)
      ensures out.RunsAway? <==> start == 0 && failAt == Some(0)
      ensures out.Stored? ==> entries == PutRange(old(entries), info, start, end + 1)
      ensures out.Stored? ==> notes == Capture(old(entries), info, start, end + 1)
      ensures out.RolledBack? ==> entries == old(entries)
    {
      notes := info;
      var lba := start;
      while lba <= end
        invariant start <= lba <= end + 1
        invariant failAt.Some? ==> !(start <= failAt.value < lba)
        invariant Described(info, start, lba)
        invariant notes == Capture(old(entries), info, start, lba)
        invariant entries == PutRange(old(entries), info, start, lba)
      {
        if failAt == Some(lba) {
          if lba == 0 {
            return notes, RunsAway;
          }
          RollbackUndoes(old(entries), info, start, lba);
          RollbackWrite(start, lba - 1, notes);
          return notes, RolledBack;
        }
        PutRangeAt(old(entries), info, start, lba, lba);
        CaptureAt(old(entries), info, start, lba, lba);
        if lba in entries {
          notes := notes[lba := notes[lba].(prior := Some(entries[lba]))];
        }
        entries := entries[lba := Value(notes[lba].newBlk, notes[lba].newCsum)];
        lba := lba + 1;
      }
      return notes, Stored;
    }

    method RollbackWrite(start: int, end: int, notes: Info)
      requires 0 <= start <= end + 1
      modifies this
      ensures entries == Restore(old(entries), notes, start, end + 1)
    {
      var lba := start;
      while lba <= end
        invariant start <= lba <= end + 1
        invariant entries == Restore(old(entries), notes, start, lba)
      {
        if lba in notes && notes[lba].prior.Some? {
          entries := entries[lba := notes[lba].prior.value];
        } else {
          entries := entries - {lba};
        }
        lba := lba + 1;
      }
    }
  }
}
