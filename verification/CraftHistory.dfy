/** Properties of a CRAFT replica over whole histories of critical sections. */
module CraftHistory {
  import opened CraftReplica
  import opened Spans

  ghost predicate ValidRun(r: Replica, es: seq<Event>)
    decreases |es|
  {
    es == [] || (Enabled(r, es[0]) && ValidRun(Apply(r, es[0]), es[1..]))
  }

  ghost function Run(r: Replica, es: seq<Event>): Replica
    decreases |es|
  {
    if es == [] then r else Run(Apply(r, es[0]), es[1..])
  }

  lemma {:induction false} RunKeepsValid(r: Replica, es: seq<Event>)
    requires Valid(r) && ValidRun(r, es)
    ensures Valid(Run(r, es))
    decreases |es|
  {
    if es != [] {
      ApplyKeepsValid(r, es[0]);
      RunKeepsValid(Apply(r, es[0]), es[1..]);
    }
  }

  lemma {:induction false} RunAppend(r: Replica, es: seq<Event>, fs: seq<Event>)
    requires ValidRun(r, es) && ValidRun(Run(r, es), fs)
    ensures ValidRun(r, es + fs) && Run(r, es + fs) == Run(Run(r, es), fs)
    decreases |es|
  {
    if es == [] {
      assert es + fs == fs;
    } else {
      TailOfAppend(es, fs);
      RunAppend(Apply(r, es[0]), es[1..], fs);
    }
  }

  // ---------- how large the missing set can become ----------

  /** The dLSN an event admits without opening a gap, that is, one past the watermark of the moment. */
  ghost function InOrderBy(r: Replica, e: Event): set<int> {
    if e.Admit? && e.dlsn == r.last + 1 then {e.dlsn} else {}
  }

  ghost function InOrder(r: Replica, es: seq<Event>): set<int>
    decreases |es|
  {
    if es == [] then {} else InOrderBy(r, es[0]) + InOrder(Apply(r, es[0]), es[1..])
  }

  const MISSING_BOUND := MAX_MISSING + MAX_OOO_GAP - 1

  /** The missing set is bounded once the slots in `exempt` are left out of the count. */
  ghost predicate Bounded(missing: set<int>, exempt: set<int>) {
    |missing - exempt| <= MISSING_BOUND
  }

  /** In every run the guards bound the missing set, apart from slots that were admitted in order. */
  lemma MissingBound(es: seq<Event>)
    requires ValidRun(FRESH, es)
    ensures |Run(FRESH, es).missing - InOrder(FRESH, es)| <= MISSING_BOUND
  {
    MissingBoundFrom(FRESH, es, {});
    assert {} + InOrder(FRESH, es) == InOrder(FRESH, es);
  }

  lemma {:induction false} MissingBoundFrom(r: Replica, es: seq<Event>, seen: set<int>)
    requires Valid(r) && ValidRun(r, es) && Bounded(r.missing, seen)
    ensures Bounded(Run(r, es).missing, seen + InOrder(r, es))
    decreases |es|
  {
    if es == [] {
      assert seen + InOrder(r, es) == seen;
    } else {
      var r', first := Apply(r, es[0]), InOrderBy(r, es[0]);
      assert Bounded(r'.missing, seen + first) by { BoundStep(r, es[0], seen); }
      assert Valid(r') by { ApplyKeepsValid(r, es[0]); }
      MissingBoundFrom(r', es[1..], seen + first);
      assert seen + first + InOrder(r', es[1..]) == seen + InOrder(r, es);
    }
  }

  lemma BoundStep(r: Replica, e: Event, seen: set<int>)
    requires Valid(r) && Enabled(r, e) && Bounded(r.missing, seen)
    ensures Bounded(Apply(r, e).missing, seen + InOrderBy(r, e))
  {
    if e.Admit? && e.dlsn > r.last + 1 {
      GapWriteSize(r, e.dlsn);
      SubsetSize(Apply(r, e).missing - (seen + InOrderBy(r, e)), Apply(r, e).missing);
    } else {
      assert Apply(r, e).missing <= r.missing + InOrderBy(r, e) by { QuietStep(r, e); }
      SubsetSize(Apply(r, e).missing - (seen + InOrderBy(r, e)), r.missing - seen);
    }
  }

  /** A write that opens a gap is admitted only below the cap, and adds at most the gap limit. */
  lemma GapWriteSize(r: Replica, dlsn: int)
    requires Valid(r) && CanAdmit(r, dlsn) && dlsn > r.last + 1
    ensures |Apply(r, Admit(dlsn)).missing| <= MISSING_BOUND
  {
    var added := Span(r.last + 1, dlsn + 1);
    SpanSize(r.last + 1, dlsn + 1);
    assert Apply(r, Admit(dlsn)).missing <= r.missing + added by { GapWriteAdds(r, dlsn); }
    SubsetSize(Apply(r, Admit(dlsn)).missing, r.missing + added);
    UnionSize(r.missing, added);
  }

  lemma GapWriteAdds(r: Replica, dlsn: int)
    requires dlsn > r.last
    ensures Apply(r, Admit(dlsn)).missing <= r.missing + Span(r.last + 1, dlsn + 1)
  {
  }

  /** No other event adds to the missing set anything but a slot admitted in order. */
  lemma QuietStep(r: Replica, e: Event)
    requires Valid(r) && Enabled(r, e)
    requires e.Admit? ==> e.dlsn <= r.last + 1
    ensures Apply(r, e).missing <= r.missing + InOrderBy(r, e)
  {
    if e.Admit? {
      assert Span(r.last + 1, e.dlsn) == {};
    }
  }

  /** Without the exemption there is no bound: in-order writes whose appends all fail pass every
      guard for ever, so a replica can be left missing any number of slots. */
  lemma {:induction false} MissingUnbounded(n: nat) returns (es: seq<Event>)
    requires n <= INT64_MAX - MAX_OOO_GAP
    ensures ValidRun(FRESH, es)
    ensures Run(FRESH, es) == FRESH.(last := n - 1, missing := Span(0, n))
    ensures |Run(FRESH, es).missing| == n
  {
    if n == 0 {
      es := [];
    } else {
      var es' := MissingUnbounded(n - 1);
      InOrderAdmission(n);
      RunAppend(FRESH, es', [Admit(n - 1)]);
      es := es' + [Admit(n - 1)];
      SpanSize(0, n);
    }
  }

  lemma InOrderAdmission(n: nat)
    requires 0 < n <= INT64_MAX - MAX_OOO_GAP
    ensures var r := FRESH.(last := n - 2, missing := Span(0, n - 1));
            && ValidRun(r, [Admit(n - 1)])
            && Run(r, [Admit(n - 1)]) == FRESH.(last := n - 1, missing := Span(0, n))
  {
    var r := FRESH.(last := n - 2, missing := Span(0, n - 1));
    var r' := Apply(r, Admit(n - 1));
    assert r'.missing == Span(0, n) by {
      forall l ensures l in r'.missing <==> l in Span(0, n) {
        MissingAfterAdmit(r, n - 1, l);
      }
    }
    assert ValidRun(r', []) && Run(r', []) == r';
    assert [Admit(n - 1)][1..] == [];
  }

  /** The one admission that takes the missing set over the bound: in order, with the set full. */
  predicate Overfills(r: Replica, e: Event) {
    e.Admit? && e.dlsn == r.last + 1 && |r.missing| == MISSING_BOUND
  }

  /** A step exceeds the bound if and only if it is that admission. */
  lemma BoundExact(r: Replica, e: Event)
    requires Valid(r) && Enabled(r, e) && |r.missing| <= MISSING_BOUND
    ensures |Apply(r, e).missing| > MISSING_BOUND <==> Overfills(r, e)
  {
    if e.Admit? && e.dlsn > r.last + 1 {
      GapWriteSize(r, e.dlsn);
    } else if e.Admit? && e.dlsn == r.last + 1 {
      InOrderAddsOne(r, e.dlsn);
    } else {
      QuietStep(r, e);
      assert r.missing + InOrderBy(r, e) == r.missing;
      SubsetSize(Apply(r, e).missing, r.missing);
    }
  }

  lemma InOrderAddsOne(r: Replica, dlsn: int)
    requires Valid(r) && dlsn == r.last + 1
    ensures |Apply(r, Admit(dlsn)).missing| == |r.missing| + 1
  {
    assert Span(r.last + 1, dlsn) == {};
    assert r.missing + (Span(r.last + 1, dlsn) - r.empty) + {dlsn} == r.missing + {dlsn};
    assert dlsn !in r.missing;
  }

  /** The bound holds in every state along a history. */
  ghost predicate BoundedThroughout(r: Replica, es: seq<Event>)
    decreases |es|
  {
    |r.missing| <= MISSING_BOUND && (es == [] || BoundedThroughout(Apply(r, es[0]), es[1..]))
  }

  /** No event of a history is an in-order admission onto a full missing set. */
  ghost predicate NeverOverfills(r: Replica, es: seq<Event>)
    decreases |es|
  {
    es == [] || (!Overfills(r, es[0]) && NeverOverfills(Apply(r, es[0]), es[1..]))
  }

  /** For whole histories: the cap holds throughout if and only if no write is admitted in order while the
      missing set is full. */
  lemma {:induction false} BoundExactInRuns(r: Replica, es: seq<Event>)
    requires Valid(r) && ValidRun(r, es) && |r.missing| <= MISSING_BOUND
    ensures BoundedThroughout(r, es) <==> NeverOverfills(r, es)
    decreases |es|
  {
    if es != [] {
      BoundExact(r, es[0]);
      ApplyKeepsValid(r, es[0]);
      if !Overfills(r, es[0]) {
        BoundExactInRuns(Apply(r, es[0]), es[1..]);
      }
    }
  }

  // ---------- draining ----------

  /** From every valid state, at the cap or beyond it, writing the missing slots one by one empties
      the missing set in exactly one admission and one success per slot, and changes nothing else. */
  lemma {:induction false} Drain(r: Replica) returns (es: seq<Event>)
    requires Valid(r)
    ensures ValidRun(r, es) && |es| == 2 * |r.missing|
    ensures forall e :: e in es ==> (e.Admit? || e.Finish?) && e.dlsn in r.missing
    ensures Run(r, es) == r.(missing := {})
    decreases |r.missing|
  {
    if |r.missing| == 0 {
      es := [];
    } else {
      var l := Element(r.missing);
      MissingSlotAdmitted(r, l, 1, false);
      var r' := Apply(r, Finish(l));
      assert Valid(r') by { ApplyKeepsValid(r, Finish(l)); }
      var rest := Drain(r');
      es := [Admit(l)] + ([Finish(l)] + rest);
      assert Run(r', rest) == r.(missing := {});
      FillThen(r, l, rest);
    }
  }

  lemma RunFrom(r: Replica, e: Event, es: seq<Event>)
    requires Enabled(r, e) && ValidRun(Apply(r, e), es)
    ensures ValidRun(r, [e] + es) && Run(r, [e] + es) == Run(Apply(r, e), es)
  {
    TailOfCons(e, es);
  }

  lemma FillThen(r: Replica, l: int, rest: seq<Event>)
    requires Valid(r) && l in r.missing && ValidRun(Apply(r, Finish(l)), rest)
    ensures ValidRun(r, [Admit(l)] + ([Finish(l)] + rest))
    ensures Run(r, [Admit(l)] + ([Finish(l)] + rest)) == Run(Apply(r, Finish(l)), rest)
  {
    MissingSlotAdmitted(r, l, 1, false);
    RunFrom(r, Finish(l), rest);
    RunFrom(r, Admit(l), [Finish(l)] + rest);
  }

  // ---------- independence of arrival order ----------

  ghost function AdmittedIn(es: seq<Event>): set<int> {
    set e | e in es && e.Admit? :: e.dlsn
  }

  ghost function FinishedIn(es: seq<Event>): set<int> {
    set e | e in es && e.Finish? :: e.dlsn
  }

  ghost function VerdictedIn(es: seq<Event>): set<int>
    decreases |es|
  {
    if es == [] then {}
    else (if es[0].Verdict? then es[0].slots else {}) + VerdictedIn(es[1..])
  }

  /** One session without truncation, in which a write finishes only after it was admitted. */
  ghost predicate Session(es: seq<Event>) {
    && (forall e :: e in es ==> !e.Truncate?)
    && (forall i :: 0 <= i < |es| && es[i].Finish? ==> es[i].dlsn in AdmittedIn(es[..i]))
  }

  /** The watermark and exceptions written as a function of three unordered sets. */
  ghost predicate Summarises(r: Replica, admitted: set<int>, finished: set<int>, verdicted: set<int>) {
    && (r.last == -1 || r.last in admitted)
    && (forall d :: d in admitted ==> 0 <= d <= r.last)
    && finished <= admitted
    && r.empty == verdicted
    && (forall l :: l in r.missing <==> 0 <= l <= r.last && l !in finished && l !in verdicted)
  }

  lemma SessionPrefix(es: seq<Event>)
    requires es != [] && Session(es)
    ensures Session(es[..|es| - 1])
  {
    var fs := es[..|es| - 1];
    forall i | 0 <= i < |fs| && fs[i].Finish?
      ensures fs[i].dlsn in AdmittedIn(fs[..i])
    {
      assert fs[..i] == es[..i];
    }
  }

  lemma {:induction false} RunSplit(r: Replica, es: seq<Event>)
    requires es != [] && ValidRun(r, es)
    ensures var n := |es| - 1; && ValidRun(r, es[..n]) && Enabled(Run(r, es[..n]), es[n])
                               && Run(r, es) == Apply(Run(r, es[..n]), es[n])
    decreases |es|
  {
    var n := |es| - 1;
    if n == 0 {
      assert es[..n] == [] && es[1..] == [];
    } else {
      var r' := Apply(r, es[0]);
      RunSplit(r', es[1..]);
      assert es[1..][..n - 1] == es[..n][1..];
    }
  }

  lemma {:induction false} VerdictedSplit(es: seq<Event>, e: Event)
    ensures VerdictedIn(es + [e]) == VerdictedIn(es) + if e.Verdict? then e.slots else {}
    decreases |es|
  {
    if es == [] {
      assert es + [e] == [e];
      assert [e][1..] == [];
    } else {
      assert (es + [e])[1..] == es[1..] + [e];
      VerdictedSplit(es[1..], e);
    }
  }

  /** Whatever the order of arrival, a session on a fresh replica ends with the watermark at the
      largest admitted dLSN and missing exactly what lies below it without success or verdict. */
  lemma {:induction false} ArrivalOrder(es: seq<Event>)
    requires ValidRun(FRESH, es) && Session(es)
    ensures Summarises(Run(FRESH, es), AdmittedIn(es), FinishedIn(es), VerdictedIn(es))
    decreases |es|
  {
    if es != [] {
      var n := |es| - 1;
      var fs, e := es[..n], es[n];
      assert es == fs + [e];
      RunSplit(FRESH, es);
      SessionPrefix(es);
      ArrivalOrder(fs);
      VerdictedSplit(fs, e);
      RunKeepsValid(FRESH, fs);
      HistorySets(fs, e);
      assert e.Finish? ==> e.dlsn in AdmittedIn(fs);
      SummaryStep(Run(FRESH, fs), e, AdmittedIn(fs), FinishedIn(fs), VerdictedIn(fs));
    }
  }

  lemma HistorySets(fs: seq<Event>, e: Event)
    ensures AdmittedIn(fs + [e]) == AdmittedIn(fs) + if e.Admit? then {e.dlsn} else {}
    ensures FinishedIn(fs + [e]) == FinishedIn(fs) + if e.Finish? then {e.dlsn} else {}
  {
    var es := fs + [e];
    assert forall x :: x in es <==> x in fs || x == e;
  }

  lemma SummaryStep(r: Replica, e: Event, admitted: set<int>, finished: set<int>, verdicted: set<int>)
    requires Valid(r) && Enabled(r, e) && !e.Truncate?
    requires Summarises(r, admitted, finished, verdicted)
    requires e.Finish? ==> e.dlsn in admitted
    ensures Summarises(Apply(r, e),
                       admitted + if e.Admit? then {e.dlsn} else {},
                       finished + if e.Finish? then {e.dlsn} else {},
                       verdicted + if e.Verdict? then e.slots else {})
  {
    assert finished + {} == finished && verdicted + {} == verdicted && admitted + {} == admitted;
    if e.Admit? {
      SummaryAdmit(r, e.dlsn, admitted, finished, verdicted);
    }
  }

  lemma SummaryAdmit(r: Replica, dlsn: int, admitted: set<int>, finished: set<int>, verdicted: set<int>)
    requires Summarises(r, admitted, finished, verdicted)
    requires 0 <= dlsn && dlsn !in r.empty && (dlsn > r.last || dlsn in r.missing)
    ensures Summarises(Apply(r, Admit(dlsn)), admitted + {dlsn}, finished, verdicted)
  {
    forall l
      ensures l in Apply(r, Admit(dlsn)).missing
              <==> 0 <= l <= Apply(r, Admit(dlsn)).last && l !in finished && l !in verdicted
    {
      MissingAfterAdmit(r, dlsn, l);
    }
  }

  /** Two fresh replicas that saw the same admissions, successes and verdicts, in whatever orders,
      have the same watermark, the same missing set and the same Empty set. */
  lemma SameSetsSameState(es: seq<Event>, fs: seq<Event>)
    requires ValidRun(FRESH, es) && Session(es)
    requires ValidRun(FRESH, fs) && Session(fs)
    requires AdmittedIn(es) == AdmittedIn(fs) && FinishedIn(es) == FinishedIn(fs)
    requires VerdictedIn(es) == VerdictedIn(fs)
    ensures var r, s := Run(FRESH, es), Run(FRESH, fs);
            r.last == s.last && r.missing == s.missing && r.empty == s.empty
  {
    ArrivalOrder(es);
    ArrivalOrder(fs);
    SummaryIsUnique(Run(FRESH, es), Run(FRESH, fs), AdmittedIn(es), FinishedIn(es), VerdictedIn(es));
  }

  lemma SummaryIsUnique(r: Replica, s: Replica, admitted: set<int>, finished: set<int>, verdicted: set<int>)
    requires Summarises(r, admitted, finished, verdicted)
    requires Summarises(s, admitted, finished, verdicted)
    ensures r.last == s.last && r.missing == s.missing && r.empty == s.empty
  {
    assert r.last == s.last;
    forall l ensures l in r.missing <==> l in s.missing {}
  }
}
