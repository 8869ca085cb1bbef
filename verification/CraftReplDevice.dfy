/** The replica object itself: the mutable fields of `CraftReplDev` and its journal back end, with the
    critical sections of write, truncate, verdict and fetch as methods.  Each is proved against the
    step machine, so what is proved of every run of the machine is proved of this code. */
module CraftReplDevice {
  import opened CraftReplica
  import opened CraftNode
  import opened Spans
  import opened Widths

  datatype Request = Request(term: nat, dlsn: int, addr: nat, len: nat, payload: nat, allZeros: bool)

  /** What the journal back end will answer: a block or no block, append, and free after a failed append. */
  datatype Backend = Backend(blk: Option<BlkId>, appendOk: bool, freeOk: bool)

  datatype WriteResult = Acked(commit: int, last: int) | Failed(error: WriteError)

  /** One entry of a fetch reply; `slot` is absent for an Empty verdict. */
  datatype Reply = Reply(lsn: int, isEmpty: bool, slot: Option<Slot>)

  /** The steps the write coroutine takes when nothing else runs between its suspension points. */
  function Script(r: Replica, req: Request, env: Backend): seq<Step> {
    if !Decide(r, req.term, req.dlsn, req.payload, req.allZeros).Admitted? then []
    else [Begin(0, req.term, req.dlsn, req.addr, req.len, req.payload, req.allZeros)] + Body(req, env)
  }

  function Body(req: Request, env: Backend): seq<Step> {
    if req.allZeros then Tail(req, env)
    else if env.blk.None? then [AllocFail(0)]
    else [AllocOk(0, env.blk.value)] + Tail(req, env)
  }

  function Tail(req: Request, env: Backend): seq<Step> {
    if env.appendOk then [AppendOk(0), PostFlight(0)]
    else if req.allZeros then [AppendFail(0)]
    else [AppendFail(0), FreeBlk(0, env.freeOk)]
  }

  /** The write is admitted as a new one: current, to a vacant slot, within the limits. */
  ghost predicate Takes(r: Replica, req: Request) {
    && Sensible(req.dlsn, req.payload, req.allZeros) && req.term == r.term
    && Vacant(r, req.dlsn) && HasRoom(r, req.dlsn)
  }

  /** What the client is told, and why. */
  ghost predicate Answered(res: WriteResult, r: Replica, req: Request, env: Backend) {
    var sensible := Sensible(req.dlsn, req.payload, req.allZeros);
    var current := sensible && req.term == r.term;
    var stored := Takes(r, req) && (req.allZeros || env.blk.Some?);
    var outOfRange := req.dlsn > 0x7FFF_FFFF_FFFF_FFFF - 1_000_000;
    && (res.Acked? <==> (current && req.dlsn in Held(r)) || (stored && env.appendOk))
    && (res == Failed(StaleTerm) <==> sensible && req.term != r.term)
    && (res == Failed(EmptySlot) <==> current && req.dlsn in r.empty)
    && (res == Failed(ValueTooLarge) <==> current && Vacant(r, req.dlsn) && !HasRoom(r, req.dlsn) && !outOfRange)
    && (res == Failed(InvalidArgument) <==> !sensible || (current && Vacant(r, req.dlsn) && outOfRange))
    && (res == Failed(AllocFailed) <==> Takes(r, req) && !stored)
    && (res == Failed(AppendFailed) <==> stored && !env.appendOk)
  }

  /** What a write leaves: its slot held and its record in the journal if it was stored, the watermark raised if it
      was taken at all, and its block allocated if the journal has it or it could not be freed. */
  ghost predicate Leaves(n: Node, n': Node, req: Request, env: Backend) {
    var stored := Takes(n.rep, req) && (req.allZeros || env.blk.Some?) && env.appendOk;
    var used := Takes(n.rep, req) && !req.allZeros && env.blk.Some?;
    && Held(n'.rep) == (if stored then Held(n.rep) + {req.dlsn} else Held(n.rep))
    && n'.rep.last == (if Takes(n.rep, req) && req.dlsn > n.rep.last then req.dlsn else n.rep.last)
    && n'.rep.commit == n.rep.commit && n'.rep.term == n.rep.term && n'.rep.empty == n.rep.empty
    && n'.journal == (if stored
                      then n.journal[req.dlsn := Slot(req.term, req.addr, req.len % 0x1_0000_0000, req.allZeros,
                                                      if req.allZeros then None else env.blk)]
                      else n.journal)
    && n'.alloc == (if used && (env.appendOk || !env.freeOk) then n.alloc + {env.blk.value} else n.alloc)
  }

  /** The slots of a request that get an answer, in request order. */
  ghost function Answerable(r: Replica, lsns: seq<int>): seq<int> {
    if lsns == [] then []
    else
      var init := Answerable(r, lsns[..|lsns| - 1]);
      var l := lsns[|lsns| - 1];
      if l in r.empty || l in Held(r) then init + [l] else init
  }

  ghost predicate Answers(r: Replica, journal: map<int, Slot>, reply: Reply, lsn: int) {
    && reply.lsn == lsn
    && reply.isEmpty == (lsn in r.empty)
    && (lsn in r.empty ==> reply.slot == None)
    && (lsn !in r.empty ==> lsn in journal && reply.slot == Some(journal[lsn]))
  }

  /** The slots that get no answer are exactly those that are neither Empty nor held. */
  lemma {:induction false} AnswerableMembers(r: Replica, lsns: seq<int>, l: int)
    ensures l in Answerable(r, lsns) <==> l in lsns && (l in r.empty || l in Held(r))
    decreases |lsns|
  {
    if lsns != [] {
      var n := |lsns| - 1;
      assert lsns == lsns[..n] + [lsns[n]];
      AnswerableMembers(r, lsns[..n], l);
    }
  }

  /** The answer to a list of requests is the answers to its parts, one after the other. */
  lemma {:induction false} AnswerableAppend(r: Replica, xs: seq<int>, ys: seq<int>)
    ensures Answerable(r, xs + ys) == Answerable(r, xs) + Answerable(r, ys)
    decreases |ys|
  {
    if ys == [] {
      assert xs + ys == xs;
    } else {
      var n := |ys| - 1;
      AnswerableAppend(r, xs, ys[..n]);
      AppendLast(xs, ys);
    }
  }

  /** And a single slot is answered once if it is Empty or held, and not at all otherwise. */
  lemma AnswerableOne(r: Replica, l: int)
    ensures Answerable(r, [l]) == if l in r.empty || l in Held(r) then [l] else []
  {
    assert [l][..0] == [];
    assert Answerable(r, [l][..0]) == [];
  }

  class CraftReplDev {
    var commitLsn: int
    var lastAppendLsn: int
    var term: nat
    var missing: set<int>
    var empty: set<int>
    var journal: map<int, Slot>
    var alloc: set<BlkId>

    ghost function State(): Replica
      reads this
    {
      Replica(commitLsn, lastAppendLsn, term, missing, empty)
    }

    /** The object as a node of the step machine with no write in flight. */
    ghost function View(): Node
      reads this
    {
      Node(State(), journal, alloc, map[])
    }

    constructor ()
      ensures View() == INITIAL
    {
      commitLsn, lastAppendLsn, term := -1, -1, 0;
      missing, empty := {}, {};
      journal, alloc := map[], {};
    }

    /** Every slot jumped over by a write becomes missing, unless it is already resolved as Empty. */
    method RecordGap(dlsn: int)
      modifies this`missing
      ensures missing == old(missing) + (Span(lastAppendLsn + 1, dlsn) - empty)
    {
      var gap := lastAppendLsn + 1;
      while gap < dlsn
        invariant lastAppendLsn + 1 <= gap
        invariant gap <= dlsn || gap == lastAppendLsn + 1
        invariant missing == old(missing) + (Span(lastAppendLsn + 1, gap) - empty)
      {
        if gap !in empty {
          missing := missing + {gap};
        }
        gap := gap + 1;
      }
    }

    /** The checks of the first critical section, in the order in which they are made. */
    method CheckWrite(req: Request) returns (a: Admission)
      ensures a == Decide(State(), req.term, req.dlsn, req.payload, req.allZeros)
    {
      var dlsn := req.dlsn;
      if dlsn < 0 {
        return Rejected(InvalidArgument);
      }
      if req.allZeros == (req.payload > 0) {
        return Rejected(InvalidArgument);
      }
      if req.term != term {
        return Rejected(StaleTerm);
      }
      if dlsn in empty {
        return Rejected(EmptySlot);
      }
      if dlsn <= lastAppendLsn && dlsn !in missing {
        return AlreadyWritten;
      }
      if dlsn > INT64_MAX - MAX_OOO_GAP {
        return Rejected(InvalidArgument);
      }
      if dlsn - lastAppendLsn > MAX_OOO_GAP {
        return Rejected(ValueTooLarge);
      }
      if dlsn > lastAppendLsn + 1 && |missing| >= MAX_MISSING {
        return Rejected(ValueTooLarge);
      }
      return Admitted;
    }

    /** Reserve the slot of an admitted write: it is missing until its append has succeeded. */
    method Reserve(dlsn: int)
      requires dlsn > lastAppendLsn || dlsn in missing
      modifies this`missing, this`lastAppendLsn
      ensures State() == Apply(old(State()), Admit(dlsn))
    {
      RecordGap(dlsn);
      if dlsn > lastAppendLsn || dlsn in missing {
        missing := missing + {dlsn};
      }
      if lastAppendLsn < dlsn {
        lastAppendLsn := dlsn;
      }
    }

    /** The first critical section of a write. */
    method AdmitWrite(req: Request) returns (a: Admission)
      modifies this`missing, this`lastAppendLsn
      ensures a == Decide(old(State()), req.term, req.dlsn, req.payload, req.allZeros)
      ensures State() == if a.Admitted? then Apply(old(State()), Admit(req.dlsn)) else old(State())
    {
      a := CheckWrite(req);
      if a.Admitted? {
        Reserve(req.dlsn);
      }
    }

    /** The last critical section of a write: the session may have changed while it was in flight. */
    method FinishWrite(writeTerm: nat, dlsn: int) returns (acked: bool)
      modifies this`missing
      ensures acked == (writeTerm == term)
      ensures missing == if writeTerm == term then old(missing) - {dlsn} else old(missing)
      ensures State() == if acked then Apply(old(State()), Finish(dlsn)) else old(State())
    {
      if writeTerm != term {
        return false;
      }
      missing := missing - {dlsn};
      return true;
    }

    /** The write coroutine, from its guards to its answer. */
    method PerformWrite(req: Request, env: Backend) returns (res: WriteResult)
      requires Inv(View())
      requires env.blk.Some? ==> env.blk.value !in alloc
      modifies this
      ensures View() == Outcome(old(View()), req, env)
      ensures Answered(res, old(State()), req, env)
      ensures res.Acked? ==> res == Acked(commitLsn, lastAppendLsn)
    {
      DecideExact(State(), req.term, req.dlsn, req.payload, req.allZeros);
      var a := AdmitWrite(req);
      if a.Rejected? {
        return Failed(a.error);
      }
      if a.AlreadyWritten? {
        return Acked(commitLsn, lastAppendLsn);
      }
      var blk := None;
      if !req.allZeros {
        if env.blk.None? {
          return Failed(AllocFailed);
        }
        blk := env.blk;
        alloc := alloc + {blk.value};
      }
      if !env.appendOk {
        if blk.Some? && env.freeOk {
          alloc := alloc - {blk.value};
        }
        return Failed(AppendFailed);
      }
      journal := journal[req.dlsn := Slot(req.term, req.addr, req.len % TWO32, req.allZeros, blk)];
      var acked := FinishWrite(req.term, req.dlsn);
      return if acked then Acked(commitLsn, lastAppendLsn) else Failed(StaleTerm);
    }

    /** The whole write with nothing interleaved: from any state the machine can be in, the object ends where the
        machine's steps for this request end, and the client is told the truth: an acknowledged slot is held, with
        the record that was sent, and each error has its one cause. */
    method Write(req: Request, env: Backend) returns (res: WriteResult)
      requires Inv(View())
      requires env.blk.Some? ==> env.blk.value !in alloc
      modifies this
      ensures ValidRun(old(View()), Script(old(State()), req, env))
      ensures View() == Run(old(View()), Script(old(State()), req, env))
      ensures Inv(View())
      ensures Answered(res, old(State()), req, env)
      ensures res.Acked? ==> res == Acked(commitLsn, lastAppendLsn) && req.dlsn in Held(State())
      ensures Leaves(old(View()), View(), req, env)
    {
      ghost var n := View();
      WriteScriptRuns(n, req, env);
      RunKeepsInv(n, Script(n.rep, req, env));
      res := PerformWrite(req, env);
      OutcomeMeans(n, req, env);
    }

    /** Tail truncation during login: journal first, and nothing at all if the journal refuses. */
    method TruncateTo(lsn: int, rollbackOk: bool) returns (ok: bool)
      requires Inv(View()) && commitLsn <= lsn
      modifies this`journal, this`lastAppendLsn, this`missing
      ensures ok == rollbackOk
      ensures View() == if ok then Take(old(View()), Control(Truncate(lsn))) else old(View())
      ensures forall l :: l in journal <==> l in old(journal) && (ok ==> l <= lsn)
      ensures forall l :: l in journal ==> journal[l] == old(journal)[l]
      ensures forall l :: l in missing <==> l in old(missing) && (ok ==> l <= lsn)
      ensures lastAppendLsn == if ok && old(lastAppendLsn) > lsn then lsn else old(lastAppendLsn)
      ensures Inv(View())
    {
      StepKeepsInv(View(), Control(Truncate(lsn)));
      if !rollbackOk {
        return false;
      }
      journal := map l | l in journal && l <= lsn :: journal[l];
      if lastAppendLsn > lsn {
        lastAppendLsn := lsn;
      }
      missing := set l | l in missing && l <= lsn;
      return true;
    }

    /** An Empty verdict, with its slots taken out of the missing set one by one. */
    method ApplyVerdict(slots: seq<int>)
      requires Inv(View())
      modifies this`empty, this`missing
      ensures View() == Take(old(View()), Control(Verdict(Elems(slots))))
      ensures forall l :: l in empty <==> l in old(empty) || l in slots
      ensures forall l :: l in missing <==> l in old(missing) && l !in slots
      ensures Inv(View())
    {
      var verdict := Elems(slots);
      StepKeepsInv(View(), Control(Verdict(verdict)));
      empty := empty + verdict;
      for k := 0 to |slots|
        invariant empty == old(empty) + verdict
        invariant missing == old(missing) - Elems(slots[..k])
      {
        missing := missing - {slots[k]};
        assert slots[..k + 1] == slots[..k] + [slots[k]];
      }
      assert slots[..|slots|] == slots;
    }

    /** The journal read behind a fetch: it may be asked only for slots that are there. */
    method ReadSlot(lsn: int, unreadable: set<int>) returns (slot: Option<Slot>)
      requires lsn in journal
      ensures slot == if lsn in unreadable then None else Some(journal[lsn])
    {
      if lsn in unreadable {
        return None;
      }
      return Some(journal[lsn]);
    }

    /** The reply to a peer: for every request list, one answer for each slot that is Empty or held and
        none for the others, in request order, Empty winning over data.  No slot outside the journal is
        ever read, and the batch fails exactly when the journal cannot deliver a held slot of it. */
    method FetchData(lsns: seq<int>, unreadable: set<int>) returns (reply: Option<seq<Reply>>)
      requires Inv(View())
      ensures reply.None? <==> exists l :: l in lsns && l in Held(State()) && l in unreadable
      ensures reply.Some? ==>
                var answered := Answerable(State(), lsns);
                && |reply.value| == |answered|
                && forall i :: 0 <= i < |answered| ==> Answers(State(), journal, reply.value[i], answered[i])
    {
      var acc: seq<Reply> := [];
      for k := 0 to |lsns|
        invariant |acc| == |Answerable(State(), lsns[..k])|
        invariant forall i :: 0 <= i < |acc| ==> Answers(State(), journal, acc[i], Answerable(State(), lsns[..k])[i])
        invariant forall l :: l in lsns[..k] && l in Held(State()) ==> l !in unreadable
      {
        var lsn := lsns[k];
        assert lsns[..k + 1][..k] == lsns[..k];
        if lsn in empty {
          acc := acc + [Reply(lsn, true, None)];
        } else if lsn >= 0 && lsn <= lastAppendLsn && lsn !in missing {
          assert lsn in Held(State());
          var slot := ReadSlot(lsn, unreadable);
          if slot.None? {
            return None;
          }
          acc := acc + [Reply(lsn, false, slot)];
        }
      }
      assert lsns[..|lsns|] == lsns;
      return Some(acc);
    }
  }

  /** The script of an undisturbed write is a run of the machine that leaves nothing in flight. */
  lemma WriteScriptRuns(n: Node, req: Request, env: Backend)
    requires Inv(n) && n.flights == map[]
    requires env.blk.Some? ==> env.blk.value !in n.alloc
    ensures ValidRun(n, Script(n.rep, req, env))
    ensures Run(n, Script(n.rep, req, env)) == Outcome(n, req, env)
  {
    if Decide(n.rep, req.term, req.dlsn, req.payload, req.allZeros).Admitted? {
      var begin := Begin(0, req.term, req.dlsn, req.addr, req.len, req.payload, req.allZeros);
      var n1 := Take(n, begin);
      if req.allZeros {
        TailRuns(n1, req, env);
      } else if env.blk.Some? {
        TailRuns(Take(n1, AllocOk(0, env.blk.value)), req, env);
        RunOne(n1, AllocOk(0, env.blk.value), Tail(req, env));
      } else {
        AbandonRuns(n1, 0, false);
        assert n1.flights - {0} == map[];
      }
      RunOne(n, begin, Body(req, env));
    }
  }

  lemma TailRuns(n: Node, req: Request, env: Backend)
    requires n.flights.Keys == {0} && ReadyToAppend(n.flights[0])
    requires n.flights[0].allZeros == req.allZeros && n.flights[0].phase.Written? == !req.allZeros
    requires n.flights[0].term == n.rep.term
    ensures ValidRun(n, Tail(req, env))
    ensures var f := n.flights[0];
            Run(n, Tail(req, env)) ==
              if env.appendOk
              then n.(rep := Apply(n.rep, Finish(f.dlsn)), journal := n.journal[f.dlsn := Entry(f)], flights := map[])
              else if !req.allZeros && env.freeOk then n.(alloc := n.alloc - {f.phase.blk}, flights := map[])
              else n.(flights := map[])
  {
    assert n.flights - {0} == map[];
    if env.appendOk {
      LastSteps(n, 0);
    } else {
      AbandonRuns(n, 0, env.freeOk);
    }
  }

  /** The node after an undisturbed write, branch by branch. */
  ghost function Outcome(n: Node, req: Request, env: Backend): Node {
    if !Decide(n.rep, req.term, req.dlsn, req.payload, req.allZeros).Admitted? then n
    else
      var r := Apply(n.rep, Admit(req.dlsn));
      if !req.allZeros && env.blk.None? then n.(rep := r)
      else
        var alloc := if req.allZeros then n.alloc else n.alloc + {env.blk.value};
        if env.appendOk then
          Node(Apply(r, Finish(req.dlsn)),
               n.journal[req.dlsn := Slot(req.term, req.addr, req.len % TWO32, req.allZeros,
                                          if req.allZeros then None else env.blk)],
               alloc, map[])
        else n.(rep := r, alloc := if !req.allZeros && env.freeOk then alloc - {env.blk.value} else alloc)
  }

  /** An admission and the success of its write, on the replica's state. */
  lemma TakenMeans(r: Replica, dlsn: int, a: Replica, f: Replica)
    requires Valid(r) && CanAdmit(r, dlsn) && a == Apply(r, Admit(dlsn)) && f == Apply(a, Finish(dlsn))
    ensures Held(a) == Held(r) && Held(f) == Held(r) + {dlsn}
    ensures a.last == f.last == if dlsn > r.last then dlsn else r.last
    ensures a.commit == f.commit == r.commit && a.term == f.term == r.term && a.empty == f.empty == r.empty
  {
    AdmitKeepsHeld(r, dlsn);
    ApplyKeepsValid(r, Admit(dlsn));
    MissingAfterAdmit(r, dlsn, dlsn);
    FinishAddsItsSlot(a, dlsn);
  }

  lemma OutcomeMeans(n: Node, req: Request, env: Backend)
    requires Inv(n) && (env.blk.Some? ==> env.blk.value !in n.alloc)
    ensures Leaves(n, Outcome(n, req, env), req, env)
  {
    var r := n.rep;
    DecideExact(r, req.term, req.dlsn, req.payload, req.allZeros);
    if Takes(r, req) {
      DecideExact(r, r.term, req.dlsn, 1, false);
      var a := Apply(r, Admit(req.dlsn));
      TakenMeans(r, req.dlsn, a, Apply(a, Finish(req.dlsn)));
      StoredMeans(n, req, env, a, Apply(a, Finish(req.dlsn)));
    }
  }

  lemma StoredMeans(n: Node, req: Request, env: Backend, a: Replica, f: Replica)
    requires Decide(n.rep, req.term, req.dlsn, req.payload, req.allZeros).Admitted? && Takes(n.rep, req)
    requires env.blk.Some? ==> env.blk.value !in n.alloc
    requires a == Apply(n.rep, Admit(req.dlsn)) && f == Apply(a, Finish(req.dlsn))
    requires Held(a) == Held(n.rep) && Held(f) == Held(n.rep) + {req.dlsn}
    requires a.last == f.last == if req.dlsn > n.rep.last then req.dlsn else n.rep.last
    requires a.commit == f.commit == n.rep.commit && a.term == f.term == n.rep.term
    requires a.empty == f.empty == n.rep.empty
    ensures Leaves(n, Outcome(n, req, env), req, env)
  {
  }
}
