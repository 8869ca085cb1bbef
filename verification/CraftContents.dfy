/** What the slots contain.  Presence of a slot survives every interleaving; its contents survive exactly as
    long as no write begins on a slot to which another write, of a different record, is still in flight. */
module CraftContents {
  import opened CraftReplica
  import opened CraftNode
  import opened Spans
  import opened Widths

  /** A node together with what its clients were last promised about each slot. */
  datatype Audit = Audit(node: Node, acked: map<int, Slot>)

  const START: Audit := Audit(INITIAL, map[])

  /** What the client of a journalled flight sent. */
  function Promised(f: Flight): Slot
    requires f.phase.Journalled?
  {
    Slot(f.term, f.addr, f.len, f.allZeros, f.phase.copy)
  }

  /** A record as the journal can hold it: with 32 bits of length. */
  function Narrow(s: Slot): Slot {
    s.(len := s.len % TWO32)
  }

  function TakeAudited(a: Audit, s: Step): Audit
    requires CanStep(a.node, s)
  {
    var n := a.node;
    var acked :=
      if Acks(n, s) && n.flights[s.id].dlsn in n.rep.missing
      then a.acked[n.flights[s.id].dlsn := Promised(n.flights[s.id])]
      else if s.Control? && s.event.Truncate? then map l | l in a.acked && l <= s.event.lsn :: a.acked[l]
      else if s.Control? && s.event.Verdict? then a.acked - s.event.slots
      else a.acked;
    Audit(Take(n, s), acked)
  }

  ghost function RunAudited(a: Audit, steps: seq<Step>): Audit
    requires ValidRun(a.node, steps)
    decreases |steps|
  {
    if steps == [] then a else RunAudited(TakeAudited(a, steps[0]), steps[1..])
  }

  /** Some acknowledged slot is not in the journal, or not with the record that was acknowledged. */
  ghost predicate Lost(a: Audit) {
    exists l :: l in a.acked && !(l in a.node.journal && a.node.journal[l] == Narrow(a.acked[l]))
  }

  // ---------- the discipline ----------

  predicate Appendable(f: Flight) {
    f.phase.Reserved? || f.phase.Written?
  }

  /** A write that can still put its record into the journal, or be acknowledged for it. */
  predicate Live(n: Node, f: Flight) {
    Appendable(f) || (f.phase.Journalled? && f.term == n.rep.term)
  }

  /** Two zero writes of one session with the same record. */
  predicate Twins(f: Flight, g: Flight) {
    f.allZeros && g.allZeros && f.term == g.term && f.addr == g.addr && f.len % TWO32 == g.len % TWO32
  }

  function NewFlight(s: Step): Flight
    requires s.Begin?
  {
    Flight(s.term, s.dlsn, s.addr, s.len, s.allZeros, Reserved)
  }

  /** No write begins on a slot while another write to it is live, unless the two are twins. */
  predicate Disciplined(n: Node, s: Step) {
    s.Begin? ==>
      forall id :: id in n.flights && n.flights[id].dlsn == s.dlsn && Live(n, n.flights[id]) ==>
                     Twins(n.flights[id], NewFlight(s))
  }

  // ---------- the invariant ----------

  /** Zero writes never have a block. */
  predicate Shape(f: Flight) {
    f.allZeros ==> f.phase.Reserved? || f.phase == Journalled(None)
  }

  ghost predicate FlightClean(n: Node, f: Flight) {
    && Shape(f)
    && (Appendable(f) && f.dlsn in Held(n.rep) ==>
          f.allZeros && f.dlsn in n.journal && n.journal[f.dlsn] == Entry(f))
    && (f.phase.Journalled? && f.term == n.rep.term ==>
          f.dlsn in n.journal && n.journal[f.dlsn] == Narrow(Promised(f)))
  }

  ghost predicate AllClean(n: Node) {
    forall id :: id in n.flights ==> FlightClean(n, n.flights[id])
  }

  ghost predicate PeersAreTwins(n: Node) {
    forall i, j ::
      (i in n.flights && j in n.flights && i != j && n.flights[i].dlsn == n.flights[j].dlsn
       && Live(n, n.flights[i]) && Live(n, n.flights[j])) ==> Twins(n.flights[i], n.flights[j])
  }

  /** The held slots are the acknowledged ones, each with the record acknowledged. */
  ghost predicate Kept(a: Audit) {
    && a.acked.Keys == Held(a.node.rep)
    && forall l :: l in a.acked ==> l in a.node.journal && a.node.journal[l] == Narrow(a.acked[l])
  }

  ghost predicate AuditInv(a: Audit) {
    Inv(a.node) && Kept(a) && AllClean(a.node) && PeersAreTwins(a.node)
  }

  lemma StepKeepsAcked(a: Audit, s: Step)
    requires AuditInv(a) && CanStep(a.node, s)
    ensures Kept(TakeAudited(a, s))
  {
    var n := a.node;
    match s
    case Begin(_, _, dlsn, _, _, _, _) => AdmitKeepsHeld(n.rep, dlsn);
    case AppendOk(id) => assert FlightClean(n, n.flights[id]);
    case PostFlight(id) =>
      assert FlightClean(n, n.flights[id]) && FlightFits(n, n.flights[id]);
      FinishAddsItsSlot(n.rep, n.flights[id].dlsn);
    case Control(e) => HeldRefinement(n.rep, e);
    case _ =>
  }

  lemma StepKeepsPeers(n: Node, s: Step)
    requires PeersAreTwins(n) && Inv(n) && CanStep(n, s) && Disciplined(n, s)
    ensures PeersAreTwins(Take(n, s))
  {
    var n' := Take(n, s);
    forall i, j | i in n'.flights && j in n'.flights && i != j && n'.flights[i].dlsn == n'.flights[j].dlsn
                  && Live(n', n'.flights[i]) && Live(n', n'.flights[j])
      ensures Twins(n'.flights[i], n'.flights[j])
    {
      StepKeepsLive(n, s, i);
      StepKeepsLive(n, s, j);
    }
  }

  /** What is live after a step was live before it, as the same request, or has just begun. */
  lemma StepKeepsLive(n: Node, s: Step, id: nat)
    requires Inv(n) && CanStep(n, s) && id in Take(n, s).flights && Live(Take(n, s), Take(n, s).flights[id])
    ensures if s.Begin? && s.id == id then Take(n, s).flights[id] == NewFlight(s)
            else id in n.flights && Live(n, n.flights[id])
                 && Take(n, s).flights[id].(phase := Reserved) == n.flights[id].(phase := Reserved)
  {
    if id in n.flights {
      assert FlightFits(n, n.flights[id]);
    }
  }

  lemma FlightStaysClean(n: Node, s: Step, id: nat)
    requires Inv(n) && AllClean(n) && PeersAreTwins(n) && CanStep(n, s) && id in n.flights && id in Take(n, s).flights
    ensures FlightClean(Take(n, s), Take(n, s).flights[id])
  {
    var n' := Take(n, s);
    assert FlightClean(n, n.flights[id]) && FlightFits(n, n.flights[id]);
    match s
    case Begin(_, _, dlsn, _, _, _, _) => AdmitKeepsHeld(n.rep, dlsn);
    case AppendOk(j) => assert FlightClean(n, n.flights[j]);
    case PostFlight(j) =>
      assert FlightClean(n, n.flights[j]) && FlightFits(n, n.flights[j]);
      FinishAddsItsSlot(n.rep, n.flights[j].dlsn);
    case Control(e) => HeldRefinement(n.rep, e);
    case _ =>
  }

  lemma StepKeepsClean(n: Node, s: Step)
    requires Inv(n) && AllClean(n) && PeersAreTwins(n) && CanStep(n, s)
    ensures AllClean(Take(n, s))
  {
    var n' := Take(n, s);
    forall id | id in n'.flights
      ensures FlightClean(n', n'.flights[id])
    {
      if id in n.flights {
        FlightStaysClean(n, s, id);
      } else {
        AdmitKeepsHeld(n.rep, s.dlsn);
      }
    }
  }

  lemma StepKeepsAudit(a: Audit, s: Step)
    requires AuditInv(a) && CanStep(a.node, s) && Disciplined(a.node, s)
    ensures AuditInv(TakeAudited(a, s))
  {
    StepKeepsInv(a.node, s);
    StepKeepsAcked(a, s);
    StepKeepsClean(a.node, s);
    StepKeepsPeers(a.node, s);
  }

  // ---------- disciplined runs ----------

  ghost predicate DisciplinedRun(n: Node, steps: seq<Step>)
    decreases |steps|
  {
    steps == []
    || (CanStep(n, steps[0]) && Disciplined(n, steps[0]) && DisciplinedRun(Take(n, steps[0]), steps[1..]))
  }

  lemma {:induction false} RunKeepsAudit(a: Audit, steps: seq<Step>)
    requires AuditInv(a) && DisciplinedRun(a.node, steps)
    ensures ValidRun(a.node, steps) && AuditInv(RunAudited(a, steps))
    decreases |steps|
  {
    if steps != [] {
      StepKeepsAudit(a, steps[0]);
      RunKeepsAudit(TakeAudited(a, steps[0]), steps[1..]);
    }
  }

  /** In every disciplined run, through any truncations, verdicts and changes of session, the slots a replica
      would serve are exactly the acknowledged ones that were neither truncated nor verdicted.  Each has the
      record that was acknowledged if and only if the write was shorter than 2^32 bytes, and otherwise
      differs from it in the length alone. */
  lemma AckedContentsAreDurable(steps: seq<Step>)
    requires DisciplinedRun(INITIAL, steps)
    ensures ValidRun(INITIAL, steps)
    ensures var a := RunAudited(START, steps);
            && Held(a.node.rep) == a.acked.Keys
            && forall l :: l in a.acked ==>
                             && l in a.node.journal && a.node.journal[l] == Narrow(a.acked[l])
                             && (a.node.journal[l] == a.acked[l] <==> a.acked[l].len < TWO32)
  {
    RunKeepsAudit(START, steps);
    var a := RunAudited(START, steps);
    assert Kept(a);
    forall l | l in a.acked
      ensures a.node.journal[l] == a.acked[l] <==> a.acked[l].len < TWO32
    {
      NarrowExact(a.acked[l]);
    }
  }

  lemma NarrowExact(s: Slot)
    ensures Narrow(s) == s <==> s.len < TWO32
  {
  }

  /** Every request of the run fits the length field. */
  ghost predicate ShortRequests(steps: seq<Step>) {
    forall s :: s in steps && s.Begin? ==> s.len < TWO32
  }

  ghost predicate AllShort(a: Audit) {
    && (forall id :: id in a.node.flights ==> a.node.flights[id].len < TWO32)
    && (forall l :: l in a.acked ==> a.acked[l].len < TWO32)
  }

  lemma {:induction false} RunKeepsShort(a: Audit, steps: seq<Step>)
    requires AllShort(a) && ValidRun(a.node, steps) && ShortRequests(steps)
    ensures AllShort(RunAudited(a, steps))
    decreases |steps|
  {
    if steps != [] {
      assert steps[0] in steps && forall s :: s in steps[1..] ==> s in steps;
      assert AllShort(TakeAudited(a, steps[0]));
      RunKeepsShort(TakeAudited(a, steps[0]), steps[1..]);
    }
  }

  /** So clients that send less than 4 GiB at a time find what they were promised. */
  lemma ShortWritesAreDurable(steps: seq<Step>)
    requires DisciplinedRun(INITIAL, steps) && ShortRequests(steps)
    ensures ValidRun(INITIAL, steps)
    ensures var a := RunAudited(START, steps);
            forall l :: l in a.acked ==> l in a.node.journal && a.node.journal[l] == a.acked[l]
  {
    AckedContentsAreDurable(steps);
    RunKeepsShort(START, steps);
  }

  /** And a longer one is acknowledged and cut: a zero write of exactly 4 GiB is journalled with length 0. */
  lemma LongZeroWriteIsCut() returns (steps: seq<Step>)
    ensures DisciplinedRun(INITIAL, steps) && ValidRun(INITIAL, steps)
    ensures var a := RunAudited(START, steps);
            0 in a.acked && a.acked[0].len == TWO32 && 0 in a.node.journal && a.node.journal[0].len == 0
  {
    var begin := Begin(0, 0, 0, 0, TWO32, 0, true);
    var a1 := TakeAudited(START, begin);
    assert a1.node.rep.missing == {0} by {
      assert Span(0, 0) == {};
    }
    var a2 := TakeAudited(a1, AppendOk(0));
    var a3 := TakeAudited(a2, PostFlight(0));
    steps := [begin, AppendOk(0), PostFlight(0)];
    assert steps[1..] == [AppendOk(0), PostFlight(0)] && steps[1..][1..] == [PostFlight(0)];
    assert steps[1..][1..][1..] == [];
    assert DisciplinedRun(a3.node, []) && DisciplinedRun(a2.node, [PostFlight(0)]);
    assert DisciplinedRun(a1.node, steps[1..]);
    RunKeepsAudit(START, steps);
    assert RunAudited(a2, [PostFlight(0)]) == a3;
    assert RunAudited(a1, steps[1..]) == a3;
  }

  // ---------- without the discipline ----------

  lemma {:induction false} AuditAppend(a: Audit, first: seq<Step>, more: seq<Step>)
    requires ValidRun(a.node, first) && ValidRun(RunAudited(a, first).node, more)
    ensures ValidRun(a.node, first + more) && RunAudited(a, first + more) == RunAudited(RunAudited(a, first), more)
    decreases |first|
  {
    if first == [] {
      assert first + more == more;
    } else {
      AuditAppend(TakeAudited(a, first[0]), first[1..], more);
      TailOfAppend(first, more);
    }
  }

  lemma {:induction false} AuditedNode(a: Audit, steps: seq<Step>)
    requires ValidRun(a.node, steps)
    ensures RunAudited(a, steps).node == Run(a.node, steps)
    decreases |steps|
  {
    if steps != [] {
      AuditedNode(TakeAudited(a, steps[0]), steps[1..]);
    }
  }

  lemma AuditOne(a: Audit, s: Step)
    requires CanStep(a.node, s)
    ensures ValidRun(a.node, [s]) && RunAudited(a, [s]) == TakeAudited(a, s)
  {
    var a' := TakeAudited(a, s);
    assert [s][1..] == [];
    assert ValidRun(a'.node, []) && RunAudited(a', []) == a';
  }

  /** The steps that put the record of a write into the journal. */
  function Appending(id: nat, f: Flight, blk: BlkId): seq<Step> {
    if f.phase.Journalled? then []
    else if ReadyToAppend(f) then [AppendOk(id)]
    else [AllocOk(id, blk), AppendOk(id)]
  }

  lemma AppendingRuns(a: Audit, id: nat, blk: BlkId)
    requires id in a.node.flights && !a.node.flights[id].phase.Releasing? && blk !in a.node.alloc
    ensures var n, f := a.node, a.node.flights[id]; var steps := Appending(id, f, blk);
            && ValidRun(n, steps)
            && var b := RunAudited(a, steps);
               && b.acked == a.acked && b.node.rep == n.rep
               && b.node.journal == (if f.phase.Journalled? then n.journal else n.journal[f.dlsn := FinalEntry(f, blk)])
               && b.node.flights == n.flights[id := f.(phase := Journalled(FinalBlk(f, blk)))]
               && b.node.alloc <= n.alloc + {blk}
  {
    var n, f := a.node, a.node.flights[id];
    if f.phase.Journalled? {
      assert n.flights[id := f] == n.flights;
    } else if ReadyToAppend(f) {
      AuditOne(a, AppendOk(id));
    } else {
      var b := TakeAudited(a, AllocOk(id, blk));
      AuditOne(a, AllocOk(id, blk));
      AuditOne(b, AppendOk(id));
      AuditAppend(a, [AllocOk(id, blk)], [AppendOk(id)]);
      assert [AllocOk(id, blk)] + [AppendOk(id)] == Appending(id, f, blk);
    }
  }

  /** Write `x` to its acknowledgement, then the append of write `y`. */
  function AckThenAppend(n: Node, x: nat, y: nat, blkx: BlkId, blky: BlkId): seq<Step>
    requires x in n.flights && y in n.flights
  {
    Appending(x, n.flights[x], blkx) + [PostFlight(x)] + Appending(y, n.flights[y], blky)
  }

  /** Two live writes to one slot, of which `x` can be acknowledged and `y` still appended, with fresh blocks. */
  ghost predicate Overlap(n: Node, x: nat, y: nat, blkx: BlkId, blky: BlkId) {
    && x in n.flights && y in n.flights && x != y && n.flights[x].dlsn == n.flights[y].dlsn
    && n.flights[x].term == n.rep.term && n.flights[x].dlsn in n.rep.missing
    && Live(n, n.flights[x]) && Appendable(n.flights[y])
    && blkx !in n.alloc && blky !in n.alloc && blkx != blky
  }

  lemma AckThenAppendRuns(a: Audit, x: nat, y: nat, blkx: BlkId, blky: BlkId)
    requires Overlap(a.node, x, y, blkx, blky)
    ensures var f, g, steps := a.node.flights[x], a.node.flights[y], AckThenAppend(a.node, x, y, blkx, blky);
            && ValidRun(a.node, steps)
            && var b := RunAudited(a, steps);
               && f.dlsn in b.acked && Narrow(b.acked[f.dlsn]) == FinalEntry(f, blkx)
               && f.dlsn in b.node.journal && b.node.journal[f.dlsn] == FinalEntry(g, blky)
  {
    var f, g := a.node.flights[x], a.node.flights[y];
    AppendingRuns(a, x, blkx);
    var b := RunAudited(a, Appending(x, f, blkx));
    AuditOne(b, PostFlight(x));
    AuditAppend(a, Appending(x, f, blkx), [PostFlight(x)]);
    var c := TakeAudited(b, PostFlight(x));
    assert c.node.flights[y] == g;
    AppendingRuns(c, y, blky);
    AuditAppend(a, Appending(x, f, blkx) + [PostFlight(x)], Appending(y, g, blky));
  }

  /** Acknowledging the one and then appending the other replaces the acknowledged record by a different
      one, if and only if the two writes are not twins. */
  lemma OverlapOverwrites(a: Audit, x: nat, y: nat, blkx: BlkId, blky: BlkId)
    requires Inv(a.node) && AllClean(a.node) && Overlap(a.node, x, y, blkx, blky)
    ensures ValidRun(a.node, AckThenAppend(a.node, x, y, blkx, blky))
    ensures var b, d := RunAudited(a, AckThenAppend(a.node, x, y, blkx, blky)), a.node.flights[x].dlsn;
            && d in b.acked && d in b.node.journal
            && (b.node.journal[d] == Narrow(b.acked[d]) <==> Twins(a.node.flights[x], a.node.flights[y]))
  {
    var n, f, g := a.node, a.node.flights[x], a.node.flights[y];
    AckThenAppendRuns(a, x, y, blkx, blky);
    assert FlightClean(n, f) && FlightClean(n, g) && FlightFits(n, f) && FlightFits(n, g);
    assert Private(n, x) && Private(n, y);
    if !f.allZeros && !g.allZeros {
      assert FinalBlk(f, blkx) != FinalBlk(g, blky);
    }
  }

  lemma {:induction false} FreshBlk(s: set<BlkId>) returns (b: BlkId)
    ensures b !in s && forall x :: x in s ==> x < b
    decreases |s|
  {
    if s == {} {
      b := 0;
    } else {
      var x :| x in s;
      var c := FreshBlk(s - {x});
      b := if c > x then c else x + 1;
      assert forall y :: y in s ==> y == x || y in s - {x};
    }
  }

  predicate NoBegin(steps: seq<Step>) {
    forall s :: s in steps ==> !s.Begin?
  }

  /** The writes now in flight can be brought to an end, without a new one, that loses something acknowledged. */
  ghost predicate CanLose(a: Audit) {
    exists steps :: NoBegin(steps) && ValidRun(a.node, steps) && Lost(RunAudited(a, steps))
  }

  /** A write that begins against the discipline overlaps with one of another record. */
  lemma OverlapAfterBegin(n: Node, s: Step, i: nat, blk: BlkId) returns (x: nat, y: nat)
    requires Inv(n) && AllClean(n) && CanStep(n, s) && s.Begin?
    requires i in n.flights && n.flights[i].dlsn == s.dlsn
    requires Live(n, n.flights[i]) && !Twins(n.flights[i], NewFlight(s))
    requires forall b :: b in n.alloc ==> b < blk
    ensures Overlap(Take(n, s), x, y, blk, blk + 1) && !Twins(Take(n, s).flights[x], Take(n, s).flights[y])
  {
    x, y := i, s.id;
    if n.flights[i].term != n.rep.term {
      x, y := s.id, i;
    }
    MissingAfterAdmit(n.rep, s.dlsn, s.dlsn);
  }

  lemma UndisciplinedLoses(a: Audit, s: Step)
    requires AuditInv(a) && CanStep(a.node, s) && !Disciplined(a.node, s)
    ensures CanLose(TakeAudited(a, s))
  {
    var n, b := a.node, TakeAudited(a, s);
    var i :| i in n.flights && n.flights[i].dlsn == s.dlsn
             && Live(n, n.flights[i]) && !Twins(n.flights[i], NewFlight(s));
    var blk := FreshBlk(n.alloc);
    var x, y := OverlapAfterBegin(n, s, i, blk);
    StepKeepsInv(n, s);
    StepKeepsClean(n, s);
    OverlapCanLose(b, x, y, blk, blk + 1);
  }

  lemma OverlapCanLose(a: Audit, x: nat, y: nat, blkx: BlkId, blky: BlkId)
    requires Inv(a.node) && AllClean(a.node) && Overlap(a.node, x, y, blkx, blky)
    requires !Twins(a.node.flights[x], a.node.flights[y])
    ensures CanLose(a)
  {
    OverlapOverwrites(a, x, y, blkx, blky);
    var steps := AckThenAppend(a.node, x, y, blkx, blky);
    assert NoBegin(steps);
    assert Lost(RunAudited(a, steps));
  }

  lemma {:induction false} WithoutBeginsDisciplined(n: Node, steps: seq<Step>)
    requires NoBegin(steps) && ValidRun(n, steps)
    ensures DisciplinedRun(n, steps)
    decreases |steps|
  {
    if steps != [] {
      assert steps[0] in steps && forall s :: s in steps[1..] ==> s in steps;
      WithoutBeginsDisciplined(Take(n, steps[0]), steps[1..]);
    }
  }

  /** The discipline is exact: from a clean state, a step leads to a state in which acknowledged contents can
      be lost without any further write if and only if it begins a write against the discipline. */
  lemma DisciplineExact(a: Audit, s: Step)
    requires AuditInv(a) && CanStep(a.node, s)
    ensures CanLose(TakeAudited(a, s)) <==> !Disciplined(a.node, s)
  {
    var b := TakeAudited(a, s);
    if !Disciplined(a.node, s) {
      UndisciplinedLoses(a, s);
    } else {
      StepKeepsAudit(a, s);
      forall steps | NoBegin(steps) && ValidRun(b.node, steps)
        ensures !Lost(RunAudited(b, steps))
      {
        WithoutBeginsDisciplined(b.node, steps);
        RunKeepsAudit(b, steps);
      }
    }
  }

  /** Admission does not enforce the discipline: while a write is in flight, its slot is missing, so a
      second write to the same dLSN is admitted as well. */
  lemma OverlapIsAdmitted(n: Node, id: nat, term: nat, payload: nat, allZeros: bool)
    requires Inv(n) && id in n.flights && n.flights[id].dlsn in n.rep.missing
    requires allZeros != (payload > 0) && term == n.rep.term
    ensures Decide(n.rep, term, n.flights[id].dlsn, payload, allZeros) == Admitted
  {
    MissingSlotAdmitted(n.rep, n.flights[id].dlsn, payload, allZeros);
  }

  /** Acknowledged contents can be lost from start-up: two zero writes of different ranges to dLSN 0. */
  lemma OverlapLosesFromStart() returns (steps: seq<Step>)
    ensures ValidRun(INITIAL, steps) && Lost(RunAudited(START, steps))
  {
    var first, second := Begin(0, 0, 0, 0, 4096, 0, true), Begin(1, 0, 0, 8192, 4096, 0, true);
    var a := TakeAudited(START, first);
    assert AuditInv(START) && Disciplined(INITIAL, first);
    StepKeepsAudit(START, first);
    assert 0 in a.node.flights && 0 in a.node.rep.missing;
    OverlapIsAdmitted(a.node, 0, 0, 0, true);
    assert !Disciplined(a.node, second);
    UndisciplinedLoses(a, second);
    var b := TakeAudited(a, second);
    var more :| NoBegin(more) && ValidRun(b.node, more) && Lost(RunAudited(b, more));
    AuditOne(START, first);
    AuditOne(a, second);
    AuditAppend(START, [first], [second]);
    AuditAppend(START, [first] + [second], more);
    steps := [first] + [second] + more;
  }
}
