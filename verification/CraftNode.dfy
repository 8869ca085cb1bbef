/** One replica with its journal, its data blocks and any number of writes in flight.  Every point at
    which the write coroutine can be suspended is a step of its own, so writes interleave with each
    other and with truncation, term changes and Empty verdicts in every possible order. */
module CraftNode {
  import opened CraftReplica
  import opened Spans
  import opened Widths
  import CraftHistory

  type BlkId = nat

  /** A journal entry: the record header and the block that holds the payload. */
  datatype Slot = Slot(term: nat, addr: nat, len: nat, allZeros: bool, blk: Option<BlkId>)

  /** How far a write in flight has come. */
  datatype Phase =
    | Reserved               // admitted; nothing allocated yet
    | Written(blk: BlkId)    // payload written, not yet in the journal
    | Releasing(blk: BlkId)  // append failed, the payload block is about to be freed
    | Journalled(copy: Option<BlkId>)  // durable in the journal, not yet acknowledged

  datatype Flight = Flight(term: nat, dlsn: int, addr: nat, len: nat, allZeros: bool, phase: Phase)

  datatype Node = Node(rep: Replica, journal: map<int, Slot>, alloc: set<BlkId>, flights: map<nat, Flight>)

  const INITIAL: Node := Node(FRESH, map[], {}, map[])

  datatype Step =
    | Begin(id: nat, term: nat, dlsn: int, addr: nat, len: nat, payload: nat, allZeros: bool)
    | AllocOk(id: nat, blk: BlkId)
    | AllocFail(id: nat)
    | AppendOk(id: nat)
    | AppendFail(id: nat)
    | FreeBlk(id: nat, ok: bool)
    | PostFlight(id: nat)
    | Control(event: Event)

  /** The block a flight would put into its journal entry. */
  function Payload(f: Flight): Option<BlkId> {
    if f.phase.Written? then Some(f.phase.blk) else None
  }

  /** The journal entry; its length field has 32 bits, the length of a request 64. */
  function Entry(f: Flight): Slot {
    Slot(f.term, f.addr, f.len % TWO32, f.allZeros, Payload(f))
  }

  predicate ReadyToAppend(f: Flight) {
    f.phase.Written? || (f.phase.Reserved? && f.allZeros)
  }

  /** No write of the current session is in flight above the cut. */
  predicate Fenced(n: Node, lsn: int) {
    forall id :: id in n.flights && n.flights[id].term == n.rep.term ==> n.flights[id].dlsn <= lsn
  }

  predicate CanStep(n: Node, s: Step) {
    match s
    case Begin(id, term, dlsn, _, _, payload, allZeros) =>
      id !in n.flights && Decide(n.rep, term, dlsn, payload, allZeros) == Admitted
    case AllocOk(id, blk) =>
      id in n.flights && n.flights[id].phase.Reserved? && !n.flights[id].allZeros && blk !in n.alloc
    case AllocFail(id) => id in n.flights && n.flights[id].phase.Reserved? && !n.flights[id].allZeros
    case AppendOk(id) => id in n.flights && ReadyToAppend(n.flights[id])
    case AppendFail(id) => id in n.flights && ReadyToAppend(n.flights[id])
    case FreeBlk(id, _) => id in n.flights && n.flights[id].phase.Releasing?
    case PostFlight(id) => id in n.flights && n.flights[id].phase.Journalled?
    case Control(e) => !e.Admit? && !e.Finish? && Enabled(n.rep, e) && (e.Truncate? ==> Fenced(n, e.lsn))
  }

  /** Whether finishing this flight acknowledges the write. */
  predicate Acks(n: Node, s: Step) {
    s.PostFlight? && s.id in n.flights && n.flights[s.id].term == n.rep.term
  }

  function Take(n: Node, s: Step): Node
    requires CanStep(n, s)
  {
    match s
    case Begin(id, term, dlsn, addr, len, _, allZeros) =>
      n.(rep := Apply(n.rep, Admit(dlsn)),
         flights := n.flights[id := Flight(term, dlsn, addr, len, allZeros, Reserved)])
    case AllocOk(id, blk) =>
      n.(alloc := n.alloc + {blk}, flights := n.flights[id := n.flights[id].(phase := Written(blk))])
    case AllocFail(id) => n.(flights := n.flights - {id})
    case AppendOk(id) =>
      var f := n.flights[id];
      n.(journal := n.journal[f.dlsn := Entry(f)],
         flights := n.flights[id := f.(phase := Journalled(Payload(f)))])
    case AppendFail(id) =>
      var f := n.flights[id];
      if f.phase.Written? then n.(flights := n.flights[id := f.(phase := Releasing(f.phase.blk))])
      else n.(flights := n.flights - {id})
    case FreeBlk(id, ok) =>
      n.(alloc := if ok then n.alloc - {n.flights[id].phase.blk} else n.alloc, flights := n.flights - {id})
    case PostFlight(id) =>
      n.(rep := if Acks(n, s) then Apply(n.rep, Finish(n.flights[id].dlsn)) else n.rep,
         flights := n.flights - {id})
    case Control(e) =>
      n.(rep := Apply(n.rep, e),
         journal := if e.Truncate? then map l | l in n.journal && l <= e.lsn :: n.journal[l] else n.journal)
  }

  // ---------- the invariant ----------

  /** The compact representation claims no slot that the journal lacks. */
  ghost predicate JournalBacked(n: Node) {
    forall l :: l in Held(n.rep) ==> l in n.journal
  }

  ghost predicate FlightFits(n: Node, f: Flight) {
    && f.term <= n.rep.term
    && (f.term == n.rep.term ==>
          && 0 <= f.dlsn <= n.rep.last
          && (f.phase.Journalled? ==> f.dlsn in n.journal))
    && (f.phase.Written? || f.phase.Releasing? ==> f.phase.blk in n.alloc)
  }

  /** No journal entry references a block that the allocator could hand out again. */
  ghost predicate NoDangling(n: Node) {
    forall l :: l in n.journal && n.journal[l].blk.Some? ==> n.journal[l].blk.value in n.alloc
  }

  /** The block of a write that is not journalled belongs to that write alone. */
  ghost predicate Private(n: Node, id: nat)
    requires id in n.flights
  {
    var f := n.flights[id];
    f.phase.Written? || f.phase.Releasing? ==>
      && (forall l :: l in n.journal ==> n.journal[l].blk != Some(f.phase.blk))
      && (forall j :: j in n.flights && j != id && (n.flights[j].phase.Written? || n.flights[j].phase.Releasing?) ==>
            n.flights[j].phase.blk != f.phase.blk)
  }

  ghost predicate Inv(n: Node) {
    && Valid(n.rep)
    && JournalBacked(n)
    && NoDangling(n)
    && (forall id :: id in n.flights ==> FlightFits(n, n.flights[id]))
    && (forall id :: id in n.flights ==> Private(n, id))
  }

  lemma StepKeepsBacking(n: Node, s: Step)
    requires Inv(n) && CanStep(n, s)
    ensures Valid(Take(n, s).rep) && JournalBacked(Take(n, s))
  {
    match s
    case Begin(id, term, dlsn, _, _, payload, allZeros) =>
      ApplyKeepsValid(n.rep, Admit(dlsn));
      AdmitKeepsHeld(n.rep, dlsn);
    case PostFlight(id) =>
      ApplyKeepsValid(n.rep, Finish(n.flights[id].dlsn));
      assert FlightFits(n, n.flights[id]);
      FinishAddsItsSlot(n.rep, n.flights[id].dlsn);
    case Control(e) =>
      ApplyKeepsValid(n.rep, e);
      HeldRefinement(n.rep, e);
    case _ =>
  }

  lemma StepKeepsFlights(n: Node, s: Step)
    requires Inv(n) && CanStep(n, s)
    ensures var n' := Take(n, s); forall id :: id in n'.flights ==> FlightFits(n', n'.flights[id])
  {
    var n' := Take(n, s);
    forall id | id in n'.flights
      ensures FlightFits(n', n'.flights[id])
    {
      assert id in n.flights ==> FlightFits(n, n.flights[id]);
      if s.FreeBlk? {
        assert Private(n, s.id) && Private(n, id);
      }
    }
  }

  lemma StepKeepsBlocks(n: Node, s: Step)
    requires Inv(n) && CanStep(n, s)
    ensures var n' := Take(n, s);
            NoDangling(n') && forall id :: id in n'.flights ==> Private(n', id)
  {
    var n' := Take(n, s);
    assert s.AppendOk? || s.FreeBlk? ==> FlightFits(n, n.flights[s.id]) && Private(n, s.id);
    forall id | id in n'.flights
      ensures Private(n', id)
    {
      if id in n.flights {
        assert Private(n, id) && FlightFits(n, n.flights[id]);
      }
      if s.AllocOk? {
        assert forall j :: j in n.flights ==> FlightFits(n, n.flights[j]);
      }
    }
  }

  lemma StepKeepsInv(n: Node, s: Step)
    requires Inv(n) && CanStep(n, s)
    ensures Inv(Take(n, s))
  {
    StepKeepsBacking(n, s);
    StepKeepsFlights(n, s);
    StepKeepsBlocks(n, s);
  }

  // ---------- whole runs ----------

  ghost predicate ValidRun(n: Node, steps: seq<Step>)
    decreases |steps|
  {
    steps == [] || (CanStep(n, steps[0]) && ValidRun(Take(n, steps[0]), steps[1..]))
  }

  ghost function Run(n: Node, steps: seq<Step>): Node
    requires ValidRun(n, steps)
    decreases |steps|
  {
    if steps == [] then n else Run(Take(n, steps[0]), steps[1..])
  }

  lemma {:induction false} RunKeepsInv(n: Node, steps: seq<Step>)
    requires Inv(n) && ValidRun(n, steps)
    ensures Inv(Run(n, steps))
    decreases |steps|
  {
    if steps != [] {
      StepKeepsInv(n, steps[0]);
      RunKeepsInv(Take(n, steps[0]), steps[1..]);
    }
  }

  /** In every interleaving from start-up, every slot the replica would serve is in its journal and
      every block a journal entry references is still allocated. */
  lemma EveryRunIsBacked(steps: seq<Step>)
    requires ValidRun(INITIAL, steps)
    ensures var n := Run(INITIAL, steps);
            && Valid(n.rep)
            && (forall l :: l in Held(n.rep) ==> l in n.journal)
            && (forall l :: l in n.journal && n.journal[l].blk.Some? ==> n.journal[l].blk.value in n.alloc)
  {
    RunKeepsInv(INITIAL, steps);
  }

  /** The only block a step can free is the one its own write allocated, after that write's append
      failed, and no journal entry refers to it. */
  lemma StepFreesOnlyItsOwn(n: Node, s: Step, b: BlkId)
    requires Inv(n) && CanStep(n, s)
    requires b in n.alloc && b !in Take(n, s).alloc
    ensures s.FreeBlk? && n.flights[s.id].phase == Releasing(b)
    ensures forall l :: l in n.journal ==> n.journal[l].blk != Some(b)
  {
    assert Private(n, s.id);
  }

  /** Forgetting journal, blocks and flights, a run of the node is a run of the replica, so every
      property of replica histories holds in every interleaving. */
  lemma {:induction false} Projection(n: Node, steps: seq<Step>) returns (es: seq<Event>)
    requires ValidRun(n, steps)
    ensures CraftHistory.ValidRun(n.rep, es)
    ensures CraftHistory.Run(n.rep, es) == Run(n, steps).rep
    decreases |steps|
  {
    if steps == [] {
      es := [];
    } else {
      var s, n' := steps[0], Take(n, steps[0]);
      es := Projection(n', steps[1..]);
      if n'.rep != n.rep {
        var e := match s
          case Begin(_, _, dlsn, _, _, _, _) => Admit(dlsn)
          case PostFlight(id) => Finish(n.flights[id].dlsn)
          case Control(e) => e
          case _ => Finish(0);
        assert Enabled(n.rep, e) && n'.rep == Apply(n.rep, e);
        TailOfCons(e, es);
        es := [e] + es;
      }
    }
  }

  // ---------- journal and blocks, step by step ----------

  /** A successful append puts the record of its request at the slot of its request, with 32 bits of length and
      the block it was given; a truncation drops exactly the entries above the cut; nothing else touches the
      journal. */
  lemma JournalStep(n: Node, s: Step, l: int)
    requires CanStep(n, s)
    ensures var j := Take(n, s).journal;
            if s.AppendOk? && n.flights[s.id].dlsn == l then
              var f := n.flights[s.id];
              l in j && j[l] == Slot(f.term, f.addr, f.len % 0x1_0000_0000, f.allZeros,
                                     if f.phase.Written? then Some(f.phase.blk) else None)
            else
              && (l in j <==> l in n.journal && !(s.Control? && s.event.Truncate? && l > s.event.lsn))
              && (l in j ==> j[l] == n.journal[l])
  {
  }

  /** An allocation adds its block, and a free that succeeds takes away the block of a write whose append has
      failed; nothing else touches the blocks. */
  lemma BlockStep(n: Node, s: Step, b: BlkId)
    requires CanStep(n, s)
    ensures b in Take(n, s).alloc
            <==> if s.AllocOk? && s.blk == b then true
                 else b in n.alloc && !(s.FreeBlk? && s.ok && n.flights[s.id].phase == Releasing(b))
  {
  }

  /** A write that gets no block ends with nothing changed; one whose append fails ends with its block freed if
      the free succeeds.  Journal and replica stay as they are: the slot is still missing. */
  lemma AbandonRuns(n: Node, id: nat, freed: bool)
    requires CanStep(n, AllocFail(id)) || CanStep(n, AppendFail(id))
    ensures var f := n.flights[id];
            var steps := if f.phase.Written? then [AppendFail(id), FreeBlk(id, freed)]
                         else if f.allZeros then [AppendFail(id)] else [AllocFail(id)];
            && ValidRun(n, steps)
            && Run(n, steps) == Node(n.rep, n.journal, if f.phase.Written? && freed then n.alloc - {f.phase.blk}
                                                       else n.alloc, n.flights - {id})
  {
    var f := n.flights[id];
    if f.phase.Written? {
      var n1 := Take(n, AppendFail(id));
      OneStep(n1, FreeBlk(id, freed));
      RunOne(n, AppendFail(id), [FreeBlk(id, freed)]);
      assert [AppendFail(id)] + [FreeBlk(id, freed)] == [AppendFail(id), FreeBlk(id, freed)];
      assert n1.flights - {id} == n.flights - {id};
    } else {
      OneStep(n, if f.allZeros then AppendFail(id) else AllocFail(id));
    }
  }

  lemma OneStep(n: Node, s: Step)
    requires CanStep(n, s)
    ensures ValidRun(n, [s]) && Run(n, [s]) == Take(n, s)
  {
    var n' := Take(n, s);
    assert ValidRun(n', []) && Run(n', []) == n';
    RunOne(n, s, []);
    assert [s] + [] == [s];
  }

  // ---------- where records come from ----------

  /** The step began a write of this record. */
  predicate Sent(s: Step, dlsn: int, r: Slot) {
    && s.Begin? && s.dlsn == dlsn && s.term == r.term && s.addr == r.addr
    && s.len % 0x1_0000_0000 == r.len && s.allZeros == r.allZeros
  }

  /** The step began this write. */
  predicate Started(s: Step, f: Flight) {
    && s.Begin? && s.dlsn == f.dlsn && s.term == f.term && s.addr == f.addr
    && s.len == f.len && s.allZeros == f.allZeros
  }

  /** Every write in flight was begun by one of the steps, every record was sent by one, and has a block exactly
      if it is not a zero write. */
  ghost predicate Traced(n: Node, past: set<Step>) {
    && (forall id :: id in n.flights ==> FlightTraced(n.flights[id], past))
    && (forall l :: l in n.journal ==> SlotTraced(n.journal[l], l, past))
  }

  ghost predicate FlightTraced(f: Flight, past: set<Step>) {
    && (exists s :: s in past && Started(s, f))
    && (f.allZeros ==> !f.phase.Written?)
  }

  ghost predicate SlotTraced(r: Slot, l: int, past: set<Step>) {
    (exists s :: s in past && Sent(s, l, r)) && (r.blk.None? <==> r.allZeros)
  }

  lemma TracedStep(n: Node, s: Step, past: set<Step>)
    requires Traced(n, past) && CanStep(n, s)
    ensures Traced(Take(n, s), past + {s})
  {
    var n', now := Take(n, s), past + {s};
    forall id | id in n'.flights
      ensures FlightTraced(n'.flights[id], now)
    {
      if s.Begin? && s.id == id {
        assert s in now && Started(s, n'.flights[id]);
      } else {
        var b :| b in past && Started(b, n.flights[id]);
        assert b in now && Started(b, n'.flights[id]);
      }
    }
    forall l | l in n'.journal
      ensures SlotTraced(n'.journal[l], l, now)
    {
      if s.AppendOk? && n.flights[s.id].dlsn == l {
        var b :| b in past && Started(b, n.flights[s.id]);
        assert b in now && Sent(b, l, n'.journal[l]);
      } else {
        var b :| b in past && Sent(b, l, n.journal[l]);
        assert b in now && Sent(b, l, n'.journal[l]);
      }
    }
  }

  lemma {:induction false} RunKeepsTrace(n: Node, steps: seq<Step>, past: set<Step>)
    requires Traced(n, past) && ValidRun(n, steps)
    ensures Traced(Run(n, steps), past + Elems(steps))
    decreases |steps|
  {
    if steps == [] {
      assert past + Elems(steps) == past;
    } else {
      TracedStep(n, steps[0], past);
      RunKeepsTrace(Take(n, steps[0]), steps[1..], past + {steps[0]});
      assert steps == [steps[0]] + steps[1..];
      assert past + {steps[0]} + Elems(steps[1..]) == past + Elems(steps);
    }
  }

  /** In every interleaving from start-up, every slot of the journal holds a record that a client sent to that slot
      in that session, with the length cut to 32 bits, and a block exactly if it is not a zero write. */
  lemma RecordsWereSent(steps: seq<Step>, l: int)
    requires ValidRun(INITIAL, steps) && l in Run(INITIAL, steps).journal
    ensures var r := Run(INITIAL, steps).journal[l];
            && (exists s :: s in steps && s.Begin? && s.dlsn == l && s.term == r.term && s.addr == r.addr
                            && s.len % 0x1_0000_0000 == r.len && s.allZeros == r.allZeros)
            && (r.blk.None? <==> r.allZeros)
  {
    RunKeepsTrace(INITIAL, steps, {});
    var r := Run(INITIAL, steps).journal[l];
    assert SlotTraced(r, l, {} + Elems(steps));
    var s :| s in {} + Elems(steps) && Sent(s, l, r);
    assert s in steps;
  }

  // ---------- acknowledgements and verdicts ----------

  /** An acknowledged write is held if and only if its slot has no Empty verdict: the last critical section
      looks at the term again, not at the verdicts. */
  lemma AckHeldExact(n: Node, id: nat)
    requires Inv(n) && CanStep(n, PostFlight(id)) && Acks(n, PostFlight(id))
    ensures n.flights[id].dlsn in Held(Take(n, PostFlight(id)).rep) <==> n.flights[id].dlsn !in n.rep.empty
  {
    assert FlightFits(n, n.flights[id]);
  }

  /** No write of the current session is in flight to an Empty slot. */
  ghost predicate NoneVerdicted(n: Node) {
    forall id :: id in n.flights && n.flights[id].term == n.rep.term ==> n.flights[id].dlsn !in n.rep.empty
  }

  /** The only step that brings a current write into that position is a verdict on its slot. */
  lemma NoneVerdictedExact(n: Node, s: Step)
    requires Inv(n) && CanStep(n, s) && NoneVerdicted(n)
    ensures NoneVerdicted(Take(n, s)) <==> !(s.Control? && s.event.Verdict? && exists id ::
              id in n.flights && n.flights[id].term == n.rep.term && n.flights[id].dlsn in s.event.slots)
  {
    var n' := Take(n, s);
    assert forall id :: id in n.flights ==> FlightFits(n, n.flights[id]);
    if s.Control? && s.event.Verdict? {
      assert n'.flights == n.flights && n'.rep.empty == n.rep.empty + s.event.slots;
    } else {
      assert forall id :: id in n'.flights && id in n.flights ==> n'.flights[id].dlsn == n.flights[id].dlsn;
      assert s.Begin? ==> n'.flights[s.id].dlsn !in n.rep.empty;
    }
  }

  lemma RunOne(n: Node, s: Step, steps: seq<Step>)
    requires CanStep(n, s) && ValidRun(Take(n, s), steps)
    ensures ValidRun(n, [s] + steps) && Run(n, [s] + steps) == Run(Take(n, s), steps)
  {
    TailOfCons(s, steps);
  }

  /** A run of the first two steps of a zero write. */
  lemma ZeroWriteJournalled(len: nat) returns (steps: seq<Step>, n: Node)
    ensures ValidRun(INITIAL, steps) && Run(INITIAL, steps) == n && Inv(n)
    ensures n == Node(Replica(-1, 0, 0, {0}, {}), map[0 := Slot(0, 0, len % TWO32, true, None)], {},
                      map[0 := Flight(0, 0, 0, len, true, Journalled(None))])
  {
    var n1 := Take(INITIAL, Begin(0, 0, 0, 0, len, 0, true));
    assert n1.rep == Replica(-1, 0, 0, {0}, {}) by {
      assert Span(0, 0) == {};
    }
    n := Take(n1, AppendOk(0));
    assert ValidRun(n, []) && Run(n, []) == n;
    RunOne(n1, AppendOk(0), []);
    RunOne(INITIAL, Begin(0, 0, 0, 0, len, 0, true), [AppendOk(0)] + []);
    steps := [Begin(0, 0, 0, 0, len, 0, true)] + ([AppendOk(0)] + []);
    RunKeepsInv(INITIAL, steps);
  }

  /** Such a write can be reached: verdicted Empty between its append and its acknowledgement. */
  lemma VerdictLosesAck() returns (steps: seq<Step>, n: Node)
    ensures ValidRun(INITIAL, steps) && Run(INITIAL, steps) == n
    ensures CanStep(n, PostFlight(0)) && Acks(n, PostFlight(0))
    ensures n.flights[0].dlsn !in Held(Take(n, PostFlight(0)).rep)
  {
    var first, n1 := ZeroWriteJournalled(0);
    var verdict := Control(Verdict({0}));
    n := Take(n1, verdict);
    assert ValidRun(n, []) && Run(n, []) == n;
    RunOne(n1, verdict, []);
    RunAppend(INITIAL, first, [verdict] + []);
    steps := first + ([verdict] + []);
  }

  /** The first step of a run, and the rest. */
  lemma RunFirst(n: Node, steps: seq<Step>) returns (n': Node)
    requires steps != [] && ValidRun(n, steps)
    ensures CanStep(n, steps[0]) && n' == Take(n, steps[0])
    ensures ValidRun(n', steps[1..]) && Run(n, steps) == Run(n', steps[1..])
  {
    n' := Take(n, steps[0]);
  }

  lemma {:induction false} RunAppend(n: Node, first: seq<Step>, more: seq<Step>)
    requires ValidRun(n, first) && ValidRun(Run(n, first), more)
    ensures ValidRun(n, first + more) && Run(n, first + more) == Run(Run(n, first), more)
    decreases |first|
  {
    if first == [] {
      assert first + more == more;
    } else {
      var n' := RunFirst(n, first);
      RunAppend(n', first[1..], more);
      TailOfAppend(first, more);
    }
  }

  // ---------- the fence of a truncation ----------

  /** A truncation, fenced or not. */
  function Cut(n: Node, lsn: int): Node {
    n.(rep := Apply(n.rep, Truncate(lsn)), journal := map l | l in n.journal && l <= lsn :: n.journal[l])
  }

  /** The invariant survives a truncation if and only if no current write is in flight above the cut. */
  lemma CutExact(n: Node, lsn: int)
    requires Inv(n) && Enabled(n.rep, Truncate(lsn))
    ensures Inv(Cut(n, lsn)) <==> Fenced(n, lsn)
  {
    if Fenced(n, lsn) {
      StepKeepsInv(n, Control(Truncate(lsn)));
      assert Cut(n, lsn) == Take(n, Control(Truncate(lsn)));
    } else {
      var id :| id in n.flights && n.flights[id].term == n.rep.term && n.flights[id].dlsn > lsn;
      assert !FlightFits(Cut(n, lsn), n.flights[id]);
    }
  }

  /** The steps that bring a write to its acknowledgement; `blk` is the block it is given. */
  function Completion(id: nat, f: Flight, blk: BlkId): seq<Step> {
    if f.phase.Journalled? then [PostFlight(id)]
    else if ReadyToAppend(f) then [AppendOk(id), PostFlight(id)]
    else [AllocOk(id, blk), AppendOk(id), PostFlight(id)]
  }

  /** What the journal entry of the write is going to refer to. */
  function FinalBlk(f: Flight, blk: BlkId): Option<BlkId> {
    if f.phase.Journalled? then f.phase.copy else if ReadyToAppend(f) then Payload(f) else Some(blk)
  }

  /** And the entry itself. */
  function FinalEntry(f: Flight, blk: BlkId): Slot {
    Slot(f.term, f.addr, f.len % TWO32, f.allZeros, FinalBlk(f, blk))
  }

  lemma CompletionRuns(n: Node, id: nat, blk: BlkId)
    requires id in n.flights && !n.flights[id].phase.Releasing? && blk !in n.alloc
    ensures var f := n.flights[id]; var steps := Completion(id, f, blk);
            && ValidRun(n, steps)
            && Run(n, steps).rep == (if f.term == n.rep.term then Apply(n.rep, Finish(f.dlsn)) else n.rep)
            && Run(n, steps).journal == (if f.phase.Journalled? then n.journal
                                         else n.journal[f.dlsn := FinalEntry(f, blk)])
            && Run(n, steps).flights == n.flights - {id}
            && n.alloc <= Run(n, steps).alloc <= n.alloc + {blk}
  {
    var f := n.flights[id];
    if f.phase.Journalled? {
      OneStep(n, PostFlight(id));
    } else if ReadyToAppend(f) {
      LastSteps(n, id);
    } else {
      var n1 := Take(n, AllocOk(id, blk));
      LastSteps(n1, id);
      RunOne(n, AllocOk(id, blk), [AppendOk(id), PostFlight(id)]);
      assert [AllocOk(id, blk)] + [AppendOk(id), PostFlight(id)] == Completion(id, f, blk);
      assert n1.flights - {id} == n.flights - {id};
    }
  }

  lemma LastSteps(n: Node, id: nat)
    requires CanStep(n, AppendOk(id))
    ensures var f := n.flights[id]; var steps := [AppendOk(id), PostFlight(id)];
            && ValidRun(n, steps)
            && Run(n, steps) == n.(rep := if f.term == n.rep.term then Apply(n.rep, Finish(f.dlsn)) else n.rep,
                                   journal := n.journal[f.dlsn := Entry(f)], flights := n.flights - {id})
  {
    var n1 := Take(n, AppendOk(id));
    OneStep(n1, PostFlight(id));
    RunOne(n, AppendOk(id), [PostFlight(id)]);
    assert [AppendOk(id)] + [PostFlight(id)] == [AppendOk(id), PostFlight(id)];
    assert n1.flights - {id} == n.flights - {id};
  }

  /** A current write that goes on to its acknowledgement after a truncation, fenced or not, is held then if
      and only if it lies at or below the cut and has no Empty verdict. */
  lemma CutAckExact(n: Node, lsn: int, id: nat, blk: BlkId)
    requires Inv(n) && Enabled(n.rep, Truncate(lsn)) && blk !in n.alloc
    requires id in n.flights && n.flights[id].term == n.rep.term && !n.flights[id].phase.Releasing?
    ensures var f, cut := n.flights[id], Cut(n, lsn);
            && ValidRun(cut, Completion(id, f, blk))
            && (f.dlsn in Held(Run(cut, Completion(id, f, blk)).rep) <==> f.dlsn <= lsn && f.dlsn !in n.rep.empty)
  {
    CompletionRuns(Cut(n, lsn), id, blk);
    assert FlightFits(n, n.flights[id]);
  }

  /** A write in flight whose acknowledgement would be of a held slot if nothing came in between. */
  ghost predicate Owed(n: Node, id: nat) {
    && id in n.flights && n.flights[id].term == n.rep.term && !n.flights[id].phase.Releasing?
    && n.flights[id].dlsn !in n.rep.empty
  }

  /** What completing the write right after the truncation leaves held. */
  ghost predicate StillHeld(n: Node, lsn: int, id: nat)
    requires id in n.flights
  {
    n.flights[id].dlsn in Held(Apply(Cut(n, lsn).rep, Finish(n.flights[id].dlsn)))
  }

  /** So a truncation costs no write its acknowledged slot if and only if none of them lies above the cut. */
  lemma CutLosesNoAckExact(n: Node, lsn: int)
    requires Inv(n) && Enabled(n.rep, Truncate(lsn))
    ensures (forall id :: Owed(n, id) ==> StillHeld(n, lsn, id))
            <==> (forall id :: Owed(n, id) ==> n.flights[id].dlsn <= lsn)
  {
    forall id | Owed(n, id)
      ensures StillHeld(n, lsn, id) <==> n.flights[id].dlsn <= lsn
    {
      assert FlightFits(n, n.flights[id]);
    }
  }

  /** An unfenced truncation that loses an acknowledged write can be reached, with a cut the replica accepts. */
  lemma UnfencedTruncateLosesAck() returns (steps: seq<Step>, n: Node)
    ensures ValidRun(INITIAL, steps) && Run(INITIAL, steps) == n
    ensures Enabled(n.rep, Truncate(-1)) && !Fenced(n, -1)
    ensures var cut := Cut(n, -1);
            && CanStep(cut, PostFlight(0)) && Acks(cut, PostFlight(0))
            && n.flights[0].dlsn !in Held(Take(cut, PostFlight(0)).rep)
            && n.flights[0].dlsn !in Take(cut, PostFlight(0)).journal
  {
    steps, n := ZeroWriteJournalled(0);
    assert 0 in n.flights && n.flights[0].dlsn == 0;
  }
}
