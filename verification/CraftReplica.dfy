/** The in-memory state of one CRAFT replica and the effect that each critical section of
    `CraftReplDev` has on it.  A replica never stores the set of slots it holds: it stores a high
    watermark and the exceptions below it, and `Held` reads the set of held slots back out. */
module CraftReplica {
  import opened Spans

  const INT64_MAX: int := 0x7FFF_FFFF_FFFF_FFFF
  const MAX_OOO_GAP: int := 1_000_000
  const MAX_MISSING: int := 2_000_000

  /** `missing` and `empty` are the two sets guarded by the same mutex as the watermarks. */
  datatype Replica = Replica(commit: int, last: int, term: nat, missing: set<int>, empty: set<int>)

  const FRESH: Replica := Replica(-1, -1, 0, {}, {})

  datatype WriteError = InvalidArgument | StaleTerm | EmptySlot | ValueTooLarge | AllocFailed | AppendFailed

  datatype Admission = Rejected(error: WriteError) | AlreadyWritten | Admitted

  /** The slots the compact representation claims are in the local journal. */
  ghost function Held(r: Replica): set<int> {
    set l | 0 <= l <= r.last && l !in r.missing && l !in r.empty
  }

  ghost predicate Valid(r: Replica) {
    && -1 <= r.commit <= r.last <= INT64_MAX - MAX_OOO_GAP
    && (forall l :: l in r.missing ==> 0 <= l <= r.last)
    && r.missing !! r.empty
  }

  /** The checks a write passes through, in the order in which they are made. */
  function Decide(r: Replica, term: nat, dlsn: int, payload: nat, allZeros: bool): Admission {
    if dlsn < 0 then Rejected(InvalidArgument)
    else if allZeros == (payload > 0) then Rejected(InvalidArgument)
    else if term != r.term then Rejected(StaleTerm)
    else if dlsn in r.empty then Rejected(EmptySlot)
    else if dlsn <= r.last && dlsn !in r.missing then AlreadyWritten
    else if dlsn > INT64_MAX - MAX_OOO_GAP then Rejected(InvalidArgument)
    else if dlsn - r.last > MAX_OOO_GAP then Rejected(ValueTooLarge)
    else if dlsn > r.last + 1 && |r.missing| >= MAX_MISSING then Rejected(ValueTooLarge)
    else Admitted
  }

  /** Everything a critical section can do to the replica. */
  datatype Event =
    | Admit(dlsn: int)
    | Finish(dlsn: int)
    | Truncate(lsn: int)
    | Verdict(slots: set<int>)
    | BumpTerm(term: nat)
    | AdvanceCommit(commit: int)

  predicate CanAdmit(r: Replica, dlsn: int) {
    Decide(r, r.term, dlsn, 1, false) == Admitted
  }

  predicate Enabled(r: Replica, e: Event) {
    match e
    case Admit(dlsn) => CanAdmit(r, dlsn)
    case Finish(dlsn) => true
    case Truncate(lsn) => r.commit <= lsn
    case Verdict(slots) => true
    case BumpTerm(term) => r.term < term
    case AdvanceCommit(commit) => r.commit <= commit <= r.last
  }

  function Apply(r: Replica, e: Event): Replica {
    match e
    case Admit(dlsn) =>
      r.(missing := r.missing + (Span(r.last + 1, dlsn) - r.empty) + {dlsn},
         last := if r.last < dlsn then dlsn else r.last)
    case Finish(dlsn) => r.(missing := r.missing - {dlsn})
    case Truncate(lsn) =>
      r.(missing := (set l | l in r.missing && l <= lsn),
         last := if r.last > lsn then lsn else r.last)
    case Verdict(slots) => r.(missing := r.missing - slots, empty := r.empty + slots)
    case BumpTerm(term) => r.(term := term)
    case AdvanceCommit(commit) => r.(commit := commit)
  }

  lemma MissingAfterAdmit(r: Replica, dlsn: int, l: int)
    ensures l in Apply(r, Admit(dlsn)).missing
            <==> l in r.missing || l == dlsn || (r.last < l < dlsn && l !in r.empty)
  {
  }

  lemma ApplyKeepsValid(r: Replica, e: Event)
    requires Valid(r) && Enabled(r, e)
    ensures Valid(Apply(r, e))
  {
  }

  // ---------- what admission decides ----------

  /** A request names a slot, and has data exactly if it is not a zero write. */
  predicate Sensible(dlsn: int, payload: nat, allZeros: bool) {
    dlsn >= 0 && allZeros == (payload == 0)
  }

  /** The limits a new write has to stay within: a slot number that leaves room above it, at most a million slots
      past the watermark, and fewer than two million missing slots if it is not the next one. */
  ghost predicate HasRoom(r: Replica, dlsn: int) {
    && dlsn <= 0x7FFF_FFFF_FFFF_FFFF - 1_000_000
    && dlsn - r.last <= 1_000_000
    && (dlsn <= r.last + 1 || |r.missing| < 2_000_000)
  }

  /** The slot is neither held nor Empty. */
  ghost predicate Vacant(r: Replica, dlsn: int) {
    dlsn !in Held(r) && dlsn !in r.empty
  }

  /** When each answer is given. */
  lemma DecideExact(r: Replica, term: nat, dlsn: int, payload: nat, allZeros: bool)
    requires Valid(r)
    ensures var a, current := Decide(r, term, dlsn, payload, allZeros),
                              Sensible(dlsn, payload, allZeros) && term == r.term;
            && (a == Admitted <==> current && Vacant(r, dlsn) && HasRoom(r, dlsn))
            && (a == AlreadyWritten <==> current && dlsn in Held(r))
            && (a == Rejected(EmptySlot) <==> current && dlsn in r.empty)
            && (a == Rejected(StaleTerm) <==> Sensible(dlsn, payload, allZeros) && term != r.term)
            && (a == Rejected(ValueTooLarge)
                <==> current && Vacant(r, dlsn) && !HasRoom(r, dlsn) && dlsn <= 0x7FFF_FFFF_FFFF_FFFF - 1_000_000)
            && (a == Rejected(InvalidArgument)
                <==> !Sensible(dlsn, payload, allZeros)
                     || (current && Vacant(r, dlsn) && dlsn > 0x7FFF_FFFF_FFFF_FFFF - 1_000_000))
  {
  }

  // ---------- the fields behind the held set ----------

  /** Up to the watermark, what is neither held nor Empty is missing. */
  lemma MissingIsTheRest(r: Replica)
    requires Valid(r)
    ensures r.missing == Span(0, r.last + 1) - Held(r) - r.empty
  {
  }

  /** What an event does to watermark, verdicts, session and commit point; the missing set is then the rest. */
  lemma EventMarks(r: Replica, e: Event)
    requires Valid(r) && Enabled(r, e)
    ensures var r' := Apply(r, e);
            && r'.last == (match e
                           case Admit(dlsn) => if dlsn > r.last then dlsn else r.last
                           case Truncate(lsn) => if lsn < r.last then lsn else r.last
                           case _ => r.last)
            && (forall l :: l in r'.empty <==> l in r.empty || (e.Verdict? && l in e.slots))
            && r'.term == (if e.BumpTerm? then e.term else r.term)
            && r'.commit == (if e.AdvanceCommit? then e.commit else r.commit)
            && r'.missing == Span(0, r'.last + 1) - Held(r') - r'.empty
  {
    ApplyKeepsValid(r, e);
    MissingIsTheRest(Apply(r, e));
  }

  // ---------- the held set as the abstract state ----------

  /** What an event does to the plain set of held slots, without mentioning watermark or exceptions.
      `wasMissing` says whether a finishing slot was still counted as missing. */
  ghost function AbstractStep(held: set<int>, e: Event, wasMissing: bool): set<int> {
    match e
    case Finish(dlsn) => if wasMissing then held + {dlsn} else held
    case Truncate(lsn) => set l | l in held && l <= lsn
    case Verdict(slots) => held - slots
    case _ => held
  }

  /** The compact representation refines the plain held set: an admission adds nothing however large
      its gap, a finish adds exactly its own slot, truncation intersects with a prefix and a verdict
      subtracts. */
  lemma HeldRefinement(r: Replica, e: Event)
    requires Valid(r) && Enabled(r, e)
    ensures Held(Apply(r, e)) == AbstractStep(Held(r), e, e.Finish? && e.dlsn in r.missing)
  {
    match e
    case Admit(dlsn) => AdmitKeepsHeld(r, dlsn);
    case Finish(dlsn) => FinishAddsItsSlot(r, dlsn);
    case Truncate(lsn) => TruncateKeepsPrefix(r, lsn);
    case Verdict(slots) => VerdictRemovesSlots(r, slots);
    case BumpTerm(_) =>
    case AdvanceCommit(_) =>
  }

  /** After an admission every slot up to the new watermark is accounted for: it was held before, it has an
      Empty verdict, or it is missing, and never two of these. */
  lemma AdmitMissing(r: Replica, dlsn: int)
    requires Valid(r) && CanAdmit(r, dlsn)
    ensures var r' := Apply(r, Admit(dlsn));
            && r'.last == (if dlsn > r.last then dlsn else r.last)
            && r'.missing == Span(0, r'.last + 1) - Held(r) - r.empty
  {
    var r' := Apply(r, Admit(dlsn));
    forall l
      ensures l in r'.missing <==> l in Span(0, r'.last + 1) && l !in Held(r) && l !in r.empty
    {
      MissingAfterAdmit(r, dlsn, l);
    }
  }

  lemma AdmitKeepsHeld(r: Replica, dlsn: int)
    requires Valid(r) && CanAdmit(r, dlsn)
    ensures Held(Apply(r, Admit(dlsn))) == Held(r)
  {
    var r' := Apply(r, Admit(dlsn));
    forall l ensures l in Held(r') <==> l in Held(r) {
      if r.last < l < dlsn {
        assert l in Span(r.last + 1, dlsn);
      }
    }
  }

  lemma FinishAddsItsSlot(r: Replica, dlsn: int)
    requires Valid(r)
    ensures Held(Apply(r, Finish(dlsn))) == if dlsn in r.missing then Held(r) + {dlsn} else Held(r)
  {
  }

  lemma TruncateKeepsPrefix(r: Replica, lsn: int)
    requires Valid(r)
    ensures Held(Apply(r, Truncate(lsn))) == set l | l in Held(r) && l <= lsn
  {
  }

  lemma VerdictRemovesSlots(r: Replica, slots: set<int>)
    requires Valid(r)
    ensures Held(Apply(r, Verdict(slots))) == Held(r) - slots
  {
  }

  // ---------- draining ----------

  /** A current-term write to a missing slot passes every guard, even with the missing set at or over
      its cap, and re-admitting it changes nothing; only its success does. */
  lemma MissingSlotAdmitted(r: Replica, l: int, payload: nat, allZeros: bool)
    requires Valid(r) && l in r.missing
    requires allZeros != (payload > 0)
    ensures Decide(r, r.term, l, payload, allZeros) == Admitted
    ensures Apply(r, Admit(l)) == r
    ensures |Apply(r, Finish(l)).missing| == |r.missing| - 1
  {
    assert r.missing + (Span(r.last + 1, l) - r.empty) + {l} == r.missing;
  }

  /** Every integer expression that admission evaluates, given the guards that precede it, fits a
      signed 64-bit integer: the gap subtraction, the increment of the watermark and the gap cursor. */
  lemma AdmissionArithmeticFits(r: Replica, dlsn: int, gap: int)
    requires Valid(r) && 0 <= dlsn <= INT64_MAX
    ensures 0 <= r.last + 1 <= INT64_MAX
    ensures dlsn <= INT64_MAX - MAX_OOO_GAP ==> -INT64_MAX <= dlsn - r.last <= INT64_MAX
    ensures CanAdmit(r, dlsn) && r.last + 1 <= gap < dlsn ==> 0 <= gap + 1 <= INT64_MAX
    ensures CanAdmit(r, dlsn) ==> Valid(Apply(r, Admit(dlsn)))
  {
    if CanAdmit(r, dlsn) {
      ApplyKeepsValid(r, Admit(dlsn));
    }
  }
}
