/** N replicas, clients that broadcast writes to them, and logins that poll a majority.  This is the
    recovery-watermark argument the write path relies on when it raises `last_append_lsn` before the
    append and never takes it back. */
module CraftCluster {
  import opened CraftReplica
  import opened CraftNode
  import opened Spans

  /** One login round: the members that answered after quiescing, the largest `last_append_lsn` among
      them, and the slots declared Empty because no polled member holds them. */
  datatype Login = Login(polled: set<nat>, mark: int, verdict: set<int>)

  /** Replica `node` acknowledged dLSN `dlsn` to the client of session `term`. */
  datatype Ack = Ack(node: nat, term: nat, dlsn: int)

  /** `logins[k]` is the committed login that opens session `k + 1`; `pending` has been polled but not
      committed.  Each replica applies the committed logins in order, each at its own time. */
  datatype Cluster = Cluster(nodes: seq<Node>, logins: seq<Login>, pending: Option<Login>, acks: set<Ack>)

  datatype Step =
    | Work(i: nat, step: CraftNode.Step)
    | Retry(i: nat, dlsn: int)
    | Poll(login: Login)
    | Abort
    | Commit
    | ApplyLogin(i: nat)
    | Resolve(i: nat, term: nat, dlsn: int)

  function Polls(c: Cluster): seq<Login> {
    c.logins + if c.pending.Some? then [c.pending.value] else []
  }

  /** A polled member takes no client write until it has applied the login it was polled for. */
  predicate Quiesced(c: Cluster, i: nat)
    requires i < |c.nodes|
  {
    exists k :: c.nodes[i].rep.term <= k < |Polls(c)| && i in Polls(c)[k].polled
  }

  predicate IsMember(c: Cluster, i: nat) {
    i < |c.nodes|
  }

  predicate Majority(c: Cluster, q: set<nat>) {
    (forall i :: i in q ==> IsMember(c, i)) && 2 * |q| > |c.nodes|
  }

  ghost function Ackers(c: Cluster, term: nat, d: int): set<nat> {
    set a | a in c.acks && a.term == term && a.dlsn == d :: a.node
  }

  ghost predicate MajorityAcked(c: Cluster, term: nat, d: int) {
    Majority(c, Ackers(c, term, d))
  }

  /** The largest watermark among the polled members. */
  ghost predicate IsMark(c: Cluster, q: set<nat>, mark: int)
    requires Majority(c, q)
  {
    && (exists i :: i in q && c.nodes[i].rep.last == mark)
    && (forall i :: i in q ==> c.nodes[i].rep.last <= mark)
  }

  ghost predicate HeldBySome(c: Cluster, q: set<nat>, l: int)
    requires Majority(c, q)
  {
    exists i :: i in q && l in Held(c.nodes[i].rep)
  }

  ghost predicate SoundPoll(c: Cluster, p: Login) {
    && Majority(c, p.polled)
    && (forall i :: i in p.polled ==> c.nodes[i].flights == map[])
    && IsMark(c, p.polled, p.mark)
    && (forall l :: l in p.verdict ==> 0 <= l <= p.mark && !HeldBySome(c, p.polled, l))
  }

  /** A replica's part in a login: adopt the verdicts, enter the session, drop the tail above the mark. */
  function Verdicted(n: Node, slots: set<int>): Node {
    Take(n, Control(Verdict(slots)))
  }

  function Entered(n: Node, p: Login): Node {
    Take(Verdicted(n, p.verdict), Control(BumpTerm(n.rep.term + 1)))
  }

  predicate CanApply(n: Node, p: Login) {
    Entered(n, p).rep.last > p.mark ==> CanStep(Entered(n, p), Control(Truncate(p.mark)))
  }

  function Joined(n: Node, p: Login): Node
    requires CanApply(n, p)
  {
    var m := Entered(n, p);
    if m.rep.last > p.mark then Take(m, Control(Truncate(p.mark))) else m
  }

  ghost predicate CanMove(c: Cluster, s: Step) {
    match s
    case Work(i, step) => i < |c.nodes| && !Quiesced(c, i) && !step.Control? && CanStep(c.nodes[i], step)
    case Retry(i, dlsn) =>
      && i < |c.nodes| && !Quiesced(c, i)
      && Decide(c.nodes[i].rep, c.nodes[i].rep.term, dlsn, 1, false) == AlreadyWritten
    case Poll(p) => c.pending.None? && SoundPoll(c, p)
    case Abort => c.pending.Some?
    case Commit => c.pending.Some?
    case ApplyLogin(i) =>
      i < |c.nodes| && c.nodes[i].rep.term < |c.logins| && CanApply(c.nodes[i], c.logins[c.nodes[i].rep.term])
    case Resolve(i, term, dlsn) =>
      && i < |c.nodes| && c.nodes[i].rep.commit <= dlsn <= c.nodes[i].rep.last
      && term <= c.nodes[i].rep.term && MajorityAcked(c, term, dlsn)
  }

  ghost function Move(c: Cluster, s: Step): Cluster
    requires CanMove(c, s)
  {
    match s
    case Work(i, step) =>
      var n := c.nodes[i];
      c.(nodes := c.nodes[i := Take(n, step)],
         acks := if Acks(n, step) then c.acks + {Ack(i, n.rep.term, n.flights[step.id].dlsn)} else c.acks)
    case Retry(i, dlsn) => c.(acks := c.acks + {Ack(i, c.nodes[i].rep.term, dlsn)})
    case Poll(p) => c.(pending := Some(p))
    case Abort => c.(pending := None)
    case Commit => c.(logins := c.logins + [c.pending.value], pending := None)
    case ApplyLogin(i) => c.(nodes := c.nodes[i := Joined(c.nodes[i], c.logins[c.nodes[i].rep.term])])
    case Resolve(i, _, dlsn) => c.(nodes := c.nodes[i := Take(c.nodes[i], Control(AdvanceCommit(dlsn)))])
  }

  // ---------- the invariant ----------

  /** A login takes a slot away from the replicas that apply it. */
  predicate Kills(p: Login, d: int) {
    d > p.mark || d in p.verdict
  }

  /** Some login among polls `from .. upto` takes slot `d` away. */
  ghost predicate Killed(polls: seq<Login>, from: nat, upto: nat, d: int)
    requires upto <= |polls|
  {
    exists k :: from <= k < upto && Kills(polls[k], d)
  }

  /** What a replica has committed ends at a slot that a majority acknowledged. */
  ghost predicate CommitFine(c: Cluster, n: Node) {
    n.rep.commit == -1 || exists t: nat :: t <= n.rep.term && MajorityAcked(c, t, n.rep.commit)
  }

  ghost predicate NodeFine(c: Cluster, i: nat)
    requires i < |c.nodes|
  {
    var n := c.nodes[i];
    && Inv(n) && CommitFine(c, n) && n.rep.term <= |c.logins|
    && (forall id :: id in n.flights && n.flights[id].term == n.rep.term ==> n.flights[id].dlsn !in n.rep.empty)
    && (Quiesced(c, i) ==> n.flights == map[])
  }

  /** An acknowledged slot is held until a later login takes it away. */
  ghost predicate AckFine(c: Cluster, a: Ack) {
    && a.node < |c.nodes|
    && a.term <= c.nodes[a.node].rep.term <= |c.logins|
    && (a.dlsn in Held(c.nodes[a.node].rep) || Killed(Polls(c), a.term, c.nodes[a.node].rep.term, a.dlsn))
  }

  /** A poll takes away no slot that a polled member acknowledged in an earlier session, unless an
      earlier login had taken it away already. */
  ghost predicate PollFine(c: Cluster, k: nat)
    requires k < |Polls(c)|
  {
    var p := Polls(c)[k];
    && Majority(c, p.polled)
    && -1 <= p.mark
    && forall a :: a in c.acks && a.node in p.polled && a.term <= k && Kills(p, a.dlsn) ==>
                     Killed(Polls(c), a.term, k, a.dlsn)
  }

  ghost predicate ClusterInv(c: Cluster) {
    && (forall i: nat :: i < |c.nodes| ==> NodeFine(c, i))
    && (forall a :: a in c.acks ==> AckFine(c, a))
    && (forall k: nat :: k < |Polls(c)| ==> PollFine(c, k))
  }

  lemma KilledMonotone(polls: seq<Login>, polls': seq<Login>, from: nat, upto: nat, upto': nat, d: int)
    requires upto <= upto' <= |polls'| && upto <= |polls|
    requires forall k :: 0 <= k < upto ==> polls[k] == polls'[k]
    requires Killed(polls, from, upto, d)
    ensures Killed(polls', from, upto', d)
  {
    var k :| from <= k < upto && Kills(polls[k], d);
    assert Kills(polls'[k], d);
  }

  // ---------- majorities ----------

  /** Two majorities meet. */
  lemma MajoritiesMeet(c: Cluster, p: set<nat>, q: set<nat>) returns (i: nat)
    requires Majority(c, p) && Majority(c, q)
    ensures i in p && i in q
  {
    IndexSetSize(p + q, |c.nodes|);
    assert |p + q| + |p * q| == |p| + |q|;
    i :| i in p * q;
  }

  lemma {:induction false} IndexSetSize(s: set<nat>, n: nat)
    requires forall i :: i in s ==> i < n
    ensures |s| <= n
    decreases n
  {
    if n > 0 {
      IndexSetSize(s - {n - 1}, n - 1);
    } else {
      assert s == {};
    }
  }

  /** No login, committed or pending, takes away a slot that a majority has acknowledged in an
      earlier session: a polled member is among those who acknowledged it. */
  lemma {:induction false} MajorityAckSurvives(c: Cluster, term: nat, d: int, k: nat)
    requires ClusterInv(c) && Majority(c, Ackers(c, term, d))
    requires term <= k < |Polls(c)|
    ensures !Kills(Polls(c)[k], d)
    decreases k
  {
    var p := Polls(c)[k];
    assert PollFine(c, k);
    if Kills(p, d) {
      var i := MajoritiesMeet(c, p.polled, Ackers(c, term, d));
      assert Ack(i, term, d) in c.acks;
      assert Killed(Polls(c), term, k, d);
      var j :| term <= j < k && Kills(Polls(c)[j], d);
      MajorityAckSurvives(c, term, d, j);
      assert false;
    }
  }

  /** More acknowledgements only add to a majority. */
  lemma MajorityStays(c: Cluster, c': Cluster, term: nat, d: int)
    requires MajorityAcked(c, term, d) && |c'.nodes| == |c.nodes| && c.acks <= c'.acks
    requires forall a :: a in c'.acks ==> a.node < |c'.nodes|
    ensures MajorityAcked(c', term, d)
  {
    SubsetSize(Ackers(c, term, d), Ackers(c', term, d));
  }

  lemma CommitStaysFine(c: Cluster, c': Cluster, n: Node, n': Node)
    requires CommitFine(c, n) && n'.rep.commit == n.rep.commit && n.rep.term <= n'.rep.term
    requires |c'.nodes| == |c.nodes| && c.acks <= c'.acks && forall a :: a in c'.acks ==> a.node < |c'.nodes|
    ensures CommitFine(c', n')
  {
    if n.rep.commit != -1 {
      var t :| 0 <= t <= n.rep.term && MajorityAcked(c, t, n.rep.commit);
      MajorityStays(c, c', t, n.rep.commit);
    }
  }

  // ---------- every step keeps it ----------

  /** Client work on a replica takes no slot away, and an acknowledged slot is held. */
  lemma WorkHolds(n: Node, step: CraftNode.Step)
    requires Inv(n) && CanStep(n, step) && !step.Control?
    requires forall id :: id in n.flights && n.flights[id].term == n.rep.term ==> n.flights[id].dlsn !in n.rep.empty
    ensures var n' := Take(n, step);
            && Inv(n') && n'.rep.commit == n.rep.commit && n'.rep.term == n.rep.term
            && Held(n.rep) <= Held(n'.rep)
            && (Acks(n, step) ==> n.flights[step.id].dlsn in Held(n'.rep))
            && forall id :: id in n'.flights && n'.flights[id].term == n'.rep.term ==>
                              n'.flights[id].dlsn !in n'.rep.empty
  {
    StepKeepsInv(n, step);
    if step.Begin? {
      AdmitKeepsHeld(n.rep, step.dlsn);
    } else if Acks(n, step) {
      assert FlightFits(n, n.flights[step.id]);
      FinishAddsItsSlot(n.rep, n.flights[step.id].dlsn);
    }
  }

  /** Applying a login takes away exactly the slots the login kills. */
  lemma JoinedHolds(n: Node, p: Login)
    requires Inv(n) && n.rep.commit <= p.mark
    ensures CanApply(n, p)
    ensures var n' := Joined(n, p);
            && Inv(n') && n'.rep.commit == n.rep.commit && n'.rep.term == n.rep.term + 1 && n'.flights == n.flights
            && (forall id :: id in n'.flights ==> n'.flights[id].term != n'.rep.term)
            && forall l :: l in Held(n'.rep) <==> l in Held(n.rep) && !Kills(p, l)
  {
    var v, m := Verdicted(n, p.verdict), Entered(n, p);
    StepKeepsInv(n, Control(Verdict(p.verdict)));
    VerdictRemovesSlots(n.rep, p.verdict);
    StepKeepsInv(v, Control(BumpTerm(n.rep.term + 1)));
    assert Held(m.rep) == Held(v.rep);
    forall id | id in n.flights
      ensures n.flights[id].term != m.rep.term
    {
      assert FlightFits(n, n.flights[id]);
    }
    if m.rep.last > p.mark {
      StepKeepsInv(m, Control(Truncate(p.mark)));
      TruncateKeepsPrefix(m.rep, p.mark);
    }
  }

  /** Its watermark is cut to the mark, the verdicts are adopted, and its journal ends at the mark if it was cut. */
  lemma JoinedMarks(n: Node, p: Login)
    requires Inv(n) && CanApply(n, p)
    ensures var n' := Joined(n, p);
            && n'.rep.last == (if n.rep.last > p.mark then p.mark else n.rep.last)
            && n'.rep.empty == n.rep.empty + p.verdict && n'.alloc == n.alloc
            && (forall l :: l in n'.journal <==> l in n.journal && (n.rep.last > p.mark ==> l <= p.mark))
            && (forall l :: l in n'.journal ==> n'.journal[l] == n.journal[l])
  {
  }

  /** A step that leaves every poll and every other replica alone. */
  lemma NodeStepKeeps(c: Cluster, c': Cluster, i: nat, acked: set<int>)
    requires ClusterInv(c) && i < |c.nodes| == |c'.nodes|
    requires c' == c.(nodes := c.nodes[i := c'.nodes[i]], acks := c'.acks)
    requires c'.acks == c.acks + set d | d in acked :: Ack(i, c.nodes[i].rep.term, d)
    requires !Quiesced(c, i)
    requires var n, n' := c.nodes[i], c'.nodes[i];
             && Inv(n') && n'.rep.commit == n.rep.commit && n'.rep.term == n.rep.term
             && (forall id :: id in n'.flights && n'.flights[id].term == n'.rep.term ==>
                   n'.flights[id].dlsn !in n'.rep.empty)
             && Held(n.rep) <= Held(n'.rep) && acked <= Held(n'.rep)
    ensures ClusterInv(c')
  {
    assert Polls(c') == Polls(c);
    forall j: nat | j < |c'.nodes|
      ensures NodeFine(c', j)
    {
      assert NodeFine(c, j);
      CommitStaysFine(c, c', c.nodes[j], c'.nodes[j]);
      assert Quiesced(c', j) == Quiesced(c, j);
    }
    forall a | a in c'.acks
      ensures AckFine(c', a)
    {
      if a in c.acks {
        assert AckFine(c, a);
      } else {
        assert NodeFine(c, i);
      }
    }
    forall k: nat | k < |Polls(c')|
      ensures PollFine(c', k)
    {
      assert PollFine(c, k);
      assert i in Polls(c)[k].polled ==> k < c.nodes[i].rep.term;
    }
  }

  lemma PollKeeps(c: Cluster, p: Login)
    requires ClusterInv(c) && CanMove(c, Poll(p))
    ensures ClusterInv(Move(c, Poll(p)))
  {
    var c' := Move(c, Poll(p));
    var polls, polls' := Polls(c), Polls(c');
    assert polls' == polls + [p];
    forall i: nat | i < |c'.nodes|
      ensures NodeFine(c', i)
    {
      assert NodeFine(c, i);
      CommitStaysFine(c, c', c.nodes[i], c'.nodes[i]);
      if Quiesced(c', i) && i !in p.polled {
        var k :| c.nodes[i].rep.term <= k < |polls'| && i in polls'[k].polled;
        assert i in polls[k].polled;
        assert Quiesced(c, i);
      }
    }
    forall a | a in c'.acks
      ensures AckFine(c', a)
    {
      assert AckFine(c, a);
      if a.dlsn !in Held(c.nodes[a.node].rep) {
        KilledMonotone(polls, polls', a.term, c.nodes[a.node].rep.term, c.nodes[a.node].rep.term, a.dlsn);
      }
    }
    forall k: nat | k < |polls'|
      ensures PollFine(c', k)
    {
      if k < |polls| {
        assert PollFine(c, k);
        forall a | a in c'.acks && a.node in polls'[k].polled && a.term <= k && Kills(polls'[k], a.dlsn)
          ensures Killed(polls', a.term, k, a.dlsn)
        {
          KilledMonotone(polls, polls', a.term, k, k, a.dlsn);
        }
      } else {
        NewPollFine(c, p);
      }
    }
  }

  /** The heart of the argument: what a quiesced member acknowledged it holds, so the mark reaches it
      and no verdict names it. */
  lemma NewPollFine(c: Cluster, p: Login)
    requires ClusterInv(c) && CanMove(c, Poll(p))
    ensures PollFine(Move(c, Poll(p)), |Polls(c)|)
  {
    var c' := Move(c, Poll(p));
    var k := |Polls(c)|;
    assert Polls(c') == Polls(c) + [p];
    var top :| top in p.polled && c.nodes[top].rep.last == p.mark;
    assert NodeFine(c, top);
    forall a | a in c'.acks && a.node in p.polled && a.term <= k && Kills(p, a.dlsn)
      ensures Killed(Polls(c'), a.term, k, a.dlsn)
    {
      assert AckFine(c, a);
      if a.dlsn in Held(c.nodes[a.node].rep) {
        assert HeldBySome(c, p.polled, a.dlsn);
        assert false;
      }
      KilledMonotone(Polls(c), Polls(c'), a.term, c.nodes[a.node].rep.term, k, a.dlsn);
    }
  }

  lemma AbortKeeps(c: Cluster)
    requires ClusterInv(c) && CanMove(c, Abort)
    ensures ClusterInv(Move(c, Abort))
  {
    var c' := Move(c, Abort);
    var polls, polls' := Polls(c), Polls(c');
    assert polls == polls' + [c.pending.value];
    forall i: nat | i < |c'.nodes|
      ensures NodeFine(c', i)
    {
      assert NodeFine(c, i);
      CommitStaysFine(c, c', c.nodes[i], c'.nodes[i]);
      if Quiesced(c', i) {
        var k :| c.nodes[i].rep.term <= k < |polls'| && i in polls'[k].polled;
        assert i in polls[k].polled;
      }
    }
    forall a | a in c'.acks
      ensures AckFine(c', a)
    {
      assert AckFine(c, a);
      if a.dlsn !in Held(c.nodes[a.node].rep) {
        KilledMonotone(polls, polls', a.term, c.nodes[a.node].rep.term, c.nodes[a.node].rep.term, a.dlsn);
      }
    }
    forall k: nat | k < |polls'|
      ensures PollFine(c', k)
    {
      assert PollFine(c, k);
      forall a | a in c'.acks && a.node in polls'[k].polled && a.term <= k && Kills(polls'[k], a.dlsn)
        ensures Killed(polls', a.term, k, a.dlsn)
      {
        KilledMonotone(polls, polls', a.term, k, k, a.dlsn);
      }
    }
  }

  lemma CommitKeeps(c: Cluster)
    requires ClusterInv(c) && CanMove(c, Commit)
    ensures ClusterInv(Move(c, Commit))
  {
    var c' := Move(c, Commit);
    assert Polls(c') == Polls(c);
    forall i: nat | i < |c'.nodes| ensures NodeFine(c', i) {
      assert NodeFine(c, i);
      CommitStaysFine(c, c', c.nodes[i], c'.nodes[i]);
      assert Quiesced(c', i) == Quiesced(c, i);
    }
    forall a | a in c'.acks ensures AckFine(c', a) {
      assert AckFine(c, a);
    }
    forall k: nat | k < |Polls(c')| ensures PollFine(c', k) {
      assert PollFine(c, k);
    }
  }

  /** No login a replica has yet to apply cuts into what the replica has committed. */
  lemma CommitBelowLogin(c: Cluster, i: nat)
    requires ClusterInv(c) && i < |c.nodes| && c.nodes[i].rep.term < |c.logins|
    ensures c.nodes[i].rep.commit <= c.logins[c.nodes[i].rep.term].mark
  {
    var n, t := c.nodes[i], c.nodes[i].rep.term;
    assert NodeFine(c, i) && PollFine(c, t) && Polls(c)[t] == c.logins[t];
    if n.rep.commit != -1 {
      var t0 :| 0 <= t0 <= t && MajorityAcked(c, t0, n.rep.commit);
      MajorityAckSurvives(c, t0, n.rep.commit, t);
    }
  }

  lemma ResolveKeeps(c: Cluster, i: nat, term: nat, dlsn: int)
    requires ClusterInv(c) && CanMove(c, Resolve(i, term, dlsn))
    ensures ClusterInv(Move(c, Resolve(i, term, dlsn)))
  {
    var c' := Move(c, Resolve(i, term, dlsn));
    assert Polls(c') == Polls(c);
    assert NodeFine(c, i);
    StepKeepsInv(c.nodes[i], Control(AdvanceCommit(dlsn)));
    forall a | a in c'.acks
      ensures AckFine(c', a)
    {
      assert AckFine(c, a);
    }
    forall j: nat | j < |c'.nodes|
      ensures NodeFine(c', j)
    {
      assert NodeFine(c, j);
      assert Quiesced(c', j) == Quiesced(c, j);
      if j == i {
        MajorityStays(c, c', term, dlsn);
      } else {
        CommitStaysFine(c, c', c.nodes[j], c'.nodes[j]);
      }
    }
    forall k: nat | k < |Polls(c')|
      ensures PollFine(c', k)
    {
      assert PollFine(c, k);
    }
  }

  lemma ApplyLoginKeeps(c: Cluster, i: nat)
    requires ClusterInv(c) && CanMove(c, ApplyLogin(i))
    ensures ClusterInv(Move(c, ApplyLogin(i)))
  {
    var c' := Move(c, ApplyLogin(i));
    var n := c.nodes[i];
    var t := n.rep.term;
    assert Polls(c') == Polls(c) && Polls(c)[t] == c.logins[t];
    assert NodeFine(c, i) && PollFine(c, t);
    CommitBelowLogin(c, i);
    JoinedHolds(n, c.logins[t]);
    forall j: nat | j < |c'.nodes|
      ensures NodeFine(c', j)
    {
      assert NodeFine(c, j);
      CommitStaysFine(c, c', c.nodes[j], c'.nodes[j]);
      if Quiesced(c', j) {
        var k :| c'.nodes[j].rep.term <= k < |Polls(c')| && j in Polls(c')[k].polled;
        assert Quiesced(c, j);
      }
    }
    forall a | a in c'.acks
      ensures AckFine(c', a)
    {
      assert AckFine(c, a);
      if a.node == i {
        if a.dlsn !in Held(n.rep) {
          KilledMonotone(Polls(c), Polls(c'), a.term, t, t + 1, a.dlsn);
        } else if Kills(c.logins[t], a.dlsn) {
          assert Kills(Polls(c')[t], a.dlsn);
        }
      }
    }
    forall k: nat | k < |Polls(c')|
      ensures PollFine(c', k)
    {
      assert PollFine(c, k);
    }
  }

  lemma MoveKeepsInv(c: Cluster, s: Step)
    requires ClusterInv(c) && CanMove(c, s)
    ensures ClusterInv(Move(c, s))
  {
    match s
    case Work(i, step) =>
      var n := c.nodes[i];
      assert NodeFine(c, i);
      WorkHolds(n, step);
      var acked := if Acks(n, step) then {n.flights[step.id].dlsn} else {};
      NodeStepKeeps(c, Move(c, s), i, acked);
    case Retry(i, dlsn) =>
      assert NodeFine(c, i);
      NodeStepKeeps(c, Move(c, s), i, {dlsn});
    case Poll(p) => PollKeeps(c, p);
    case Abort => AbortKeeps(c);
    case Commit => CommitKeeps(c);
    case ApplyLogin(i) => ApplyLoginKeeps(c, i);
    case Resolve(i, term, dlsn) => ResolveKeeps(c, i, term, dlsn);
  }

  // ---------- whole runs ----------

  ghost predicate ValidRun(c: Cluster, steps: seq<Step>)
    decreases |steps|
  {
    steps == [] || (CanMove(c, steps[0]) && ValidRun(Move(c, steps[0]), steps[1..]))
  }

  ghost function Run(c: Cluster, steps: seq<Step>): Cluster
    requires ValidRun(c, steps)
    decreases |steps|
  {
    if steps == [] then c else Run(Move(c, steps[0]), steps[1..])
  }

  /** `n` replicas at start-up. */
  function Initial(n: nat): Cluster {
    Cluster(seq(n, _ => INITIAL), [], None, {})
  }

  lemma {:induction false} RunKeepsInv(c: Cluster, steps: seq<Step>)
    requires ClusterInv(c) && ValidRun(c, steps)
    ensures ClusterInv(Run(c, steps)) && |Run(c, steps).nodes| == |c.nodes|
    decreases |steps|
  {
    if steps != [] {
      MoveKeepsInv(c, steps[0]);
      RunKeepsInv(Move(c, steps[0]), steps[1..]);
    }
  }

  lemma {:induction false} RunAppend(c: Cluster, first: seq<Step>, more: seq<Step>)
    requires ValidRun(c, first) && ValidRun(Run(c, first), more)
    ensures ValidRun(c, first + more) && Run(c, first + more) == Run(Run(c, first), more)
    decreases |first|
  {
    if first == [] {
      assert first + more == more;
    } else {
      RunAppend(Move(c, first[0]), first[1..], more);
      TailOfAppend(first, more);
    }
  }

  // ---------- acknowledgements ----------

  /** The step tells the client of session `a.term` that replica `a.node` has slot `a.dlsn`: the last critical
      section of a write of that session, or the reply to a write of a slot that is held already. */
  ghost predicate Acknowledges(c: Cluster, s: Step, a: Ack) {
    && a.node < |c.nodes| && a.term == c.nodes[a.node].rep.term
    && if s.Work? then
         var n := c.nodes[a.node];
         && s.i == a.node && s.step.PostFlight? && s.step.id in n.flights
         && n.flights[s.step.id].term == n.rep.term && n.flights[s.step.id].dlsn == a.dlsn
       else
         s.Retry? && s.i == a.node && s.dlsn == a.dlsn && a.dlsn in Held(c.nodes[a.node].rep)
  }

  /** A step records exactly the acknowledgement it gives. */
  lemma AckStep(c: Cluster, s: Step, a: Ack)
    requires CanMove(c, s)
    ensures a in Move(c, s).acks <==> a in c.acks || Acknowledges(c, s, a)
  {
  }

  /** Retrying is possible exactly for a held slot of a replica that is not quiesced. */
  lemma RetryExact(c: Cluster, i: nat, dlsn: int)
    requires i < |c.nodes| && Inv(c.nodes[i])
    ensures CanMove(c, Retry(i, dlsn)) <==> dlsn in Held(c.nodes[i].rep) && !Quiesced(c, i)
  {
    DecideExact(c.nodes[i].rep, c.nodes[i].rep.term, dlsn, 1, false);
  }

  /** The cluster before step `k` of a run. */
  ghost function StateAt(c: Cluster, steps: seq<Step>, k: nat): Cluster
    requires ValidRun(c, steps) && k <= |steps|
    decreases k
  {
    if k == 0 then c else StateAt(Move(c, steps[0]), steps[1..], k - 1)
  }

  /** Over whole runs: an acknowledgement is on record if and only if it was there to begin with or some step of
      the run gave it. */
  lemma {:induction false} AcksInRuns(c: Cluster, steps: seq<Step>, a: Ack)
    requires ValidRun(c, steps)
    ensures a in Run(c, steps).acks
            <==> a in c.acks || exists k :: 0 <= k < |steps| && Acknowledges(StateAt(c, steps, k), steps[k], a)
    decreases |steps|
  {
    if steps != [] {
      var c', rest := Move(c, steps[0]), steps[1..];
      AckStep(c, steps[0], a);
      AcksInRuns(c', rest, a);
      if Acknowledges(c, steps[0], a) {
        assert Acknowledges(StateAt(c, steps, 0), steps[0], a);
      }
      if k :| 0 <= k < |rest| && Acknowledges(StateAt(c', rest, k), rest[k], a) {
        assert StateAt(c, steps, k + 1) == StateAt(c', rest, k) && steps[k + 1] == rest[k];
      }
      if k :| 0 < k < |steps| && Acknowledges(StateAt(c, steps, k), steps[k], a) {
        assert StateAt(c', rest, k - 1) == StateAt(c, steps, k) && rest[k - 1] == steps[k];
      }
    }
  }

  /** Committed logins stay, and only a commit adds one: the poll that was pending. */
  lemma LoginStep(c: Cluster, s: Step)
    requires CanMove(c, s)
    ensures Move(c, s).logins == c.logins + if s.Commit? then [c.pending.value] else []
    ensures Move(c, s).pending == if s.Poll? then Some(s.login) else if s.Abort? || s.Commit? then None else c.pending
  {
  }

  // ---------- a session, from start-up to the next login ----------

  /** A replica that has acknowledged a zero write to slot 0. */
  const SERVED: Node := Node(Replica(-1, 0, 0, {}, {}), map[0 := Slot(0, 0, 4096, true, None)], {}, map[])

  function Serve(i: nat): seq<Step> {
    [Work(i, Begin(0, 0, 0, 0, 4096, 0, true)), Work(i, AppendOk(0)), Work(i, PostFlight(0))]
  }

  lemma OneMove(c: Cluster, s: Step)
    requires CanMove(c, s)
    ensures ValidRun(c, [s]) && Run(c, [s]) == Move(c, s)
  {
    var c' := Move(c, s);
    assert [s][1..] == [];
    assert ValidRun(c', []) && Run(c', []) == c';
  }

  lemma ServeRuns(c: Cluster, i: nat)
    requires i < |c.nodes| && c.nodes[i] == INITIAL && Polls(c) == []
    ensures ValidRun(c, Serve(i))
    ensures Run(c, Serve(i)) == c.(nodes := c.nodes[i := SERVED], acks := c.acks + {Ack(i, 0, 0)})
  {
    var begun := Take(INITIAL, Begin(0, 0, 0, 0, 4096, 0, true));
    assert begun.rep == Replica(-1, 0, 0, {0}, {}) by {
      assert Span(0, 0) == {};
    }
    var appended := Take(begun, AppendOk(0));
    assert Take(appended, PostFlight(0)) == SERVED;
    var c1 := Move(c, Serve(i)[0]);
    assert c1 == c.(nodes := c.nodes[i := begun]);
    var c2 := Move(c1, Serve(i)[1]);
    assert c2 == c.(nodes := c.nodes[i := appended]);
    var c3 := Move(c2, Serve(i)[2]);
    OneMove(c, Serve(i)[0]);
    OneMove(c1, Serve(i)[1]);
    OneMove(c2, Serve(i)[2]);
    RunAppend(c, [Serve(i)[0]], [Serve(i)[1]]);
    RunAppend(c, [Serve(i)[0]] + [Serve(i)[1]], [Serve(i)[2]]);
    assert [Serve(i)[0]] + [Serve(i)[1]] + [Serve(i)[2]] == Serve(i);
    assert c3 == c.(nodes := c.nodes[i := SERVED], acks := c.acks + {Ack(i, 0, 0)});
  }

  const ONE_SERVED: Cluster := Cluster([SERVED, INITIAL, INITIAL], [], None, {Ack(0, 0, 0)})

  const TWO_SERVED: Cluster := Cluster([SERVED, SERVED, INITIAL], [], None, {Ack(0, 0, 0), Ack(1, 0, 0)})

  const ALL_SERVED: Cluster :=
    Cluster([SERVED, SERVED, SERVED], [], None, {Ack(0, 0, 0), Ack(1, 0, 0), Ack(2, 0, 0)})

  /** Serving replica `i` leads from one cluster to another that differs only there. */
  lemma ServeLeads(c: Cluster, i: nat, c': Cluster)
    requires i < |c.nodes| && c.nodes[i] == INITIAL && Polls(c) == []
    requires c'.nodes == c.nodes[i := SERVED] && c'.acks == c.acks + {Ack(i, 0, 0)}
    requires c'.logins == c.logins && c'.pending == c.pending
    ensures ValidRun(c, Serve(i)) && Run(c, Serve(i)) == c'
  {
    ServeRuns(c, i);
  }

  lemma AllServe() returns (steps: seq<Step>)
    ensures ValidRun(Initial(3), steps) && Run(Initial(3), steps) == ALL_SERVED
  {
    assert Initial(3).nodes[0 := SERVED] == ONE_SERVED.nodes;
    ServeLeads(Initial(3), 0, ONE_SERVED);
    assert ONE_SERVED.nodes[1 := SERVED] == TWO_SERVED.nodes;
    ServeLeads(ONE_SERVED, 1, TWO_SERVED);
    assert TWO_SERVED.nodes[2 := SERVED] == ALL_SERVED.nodes;
    ServeLeads(TWO_SERVED, 2, ALL_SERVED);
    RunAppend(Initial(3), Serve(0), Serve(1));
    RunAppend(Initial(3), Serve(0) + Serve(1), Serve(2));
    steps := Serve(0) + Serve(1) + Serve(2);
  }

  /** The same replica in session 1, with slot 0 committed or not. */
  function Rejoined(commit: int): Node {
    SERVED.(rep := Replica(commit, 0, 1, {}, {}))
  }

  const FIRST_LOGIN: Login := Login({0, 1}, 0, {})

  lemma AllAcked()
    ensures Ackers(ALL_SERVED, 0, 0) == {0, 1, 2} && MajorityAcked(ALL_SERVED, 0, 0)
  {
    assert Ack(0, 0, 0) in ALL_SERVED.acks && Ack(1, 0, 0) in ALL_SERVED.acks && Ack(2, 0, 0) in ALL_SERVED.acks;
    assert Ackers(ALL_SERVED, 0, 0) == {0, 1, 2};
  }

  lemma LoginRuns() returns (steps: seq<Step>)
    ensures ValidRun(ALL_SERVED, steps)
    ensures Run(ALL_SERVED, steps)
            == ALL_SERVED.(nodes := [SERVED.(rep := Replica(0, 0, 0, {}, {})), SERVED, SERVED], logins := [FIRST_LOGIN])
  {
    AllAcked();
    var c1 := Move(ALL_SERVED, Resolve(0, 0, 0));
    assert c1.nodes == [SERVED.(rep := Replica(0, 0, 0, {}, {})), SERVED, SERVED];
    assert 0 in FIRST_LOGIN.polled && c1.nodes[0].rep.last == 0;
    assert Majority(c1, FIRST_LOGIN.polled) && IsMark(c1, FIRST_LOGIN.polled, 0);
    var c2 := Move(c1, Poll(FIRST_LOGIN));
    OneMove(ALL_SERVED, Resolve(0, 0, 0));
    OneMove(c1, Poll(FIRST_LOGIN));
    OneMove(c2, Commit);
    RunAppend(ALL_SERVED, [Resolve(0, 0, 0)], [Poll(FIRST_LOGIN)]);
    RunAppend(ALL_SERVED, [Resolve(0, 0, 0)] + [Poll(FIRST_LOGIN)], [Commit]);
    steps := [Resolve(0, 0, 0)] + [Poll(FIRST_LOGIN)] + [Commit];
  }

  lemma JoinRuns(c: Cluster, i: nat, commit: int)
    requires i < |c.nodes| && c.logins == [FIRST_LOGIN] && -1 <= commit <= 0
    requires c.nodes[i] == SERVED.(rep := Replica(commit, 0, 0, {}, {}))
    ensures ValidRun(c, [ApplyLogin(i)])
    ensures Run(c, [ApplyLogin(i)]) == c.(nodes := c.nodes[i := Rejoined(commit)])
  {
    var n := c.nodes[i];
    assert Verdicted(n, {}) == n;
    assert Entered(n, FIRST_LOGIN) == Rejoined(commit);
    assert Joined(n, FIRST_LOGIN) == Rejoined(commit);
    OneMove(c, ApplyLogin(i));
  }

  /** From start-up: three replicas acknowledge slot 0, one of them commits it, two are polled, and the login is
      committed and applied by all.  Its mark is the slot, and every replica holds it in the new session. */
  lemma FirstSession() returns (steps: seq<Step>)
    ensures ValidRun(Initial(3), steps)
    ensures var c := Run(Initial(3), steps);
            && c == Cluster([Rejoined(0), Rejoined(-1), Rejoined(-1)], [Login({0, 1}, 0, {})], None,
                            {Ack(0, 0, 0), Ack(1, 0, 0), Ack(2, 0, 0)})
            && |Ackers(c, 0, 0)| == 3 && MajorityAcked(c, 0, 0)
            && forall i :: 0 <= i < 3 ==> Held(c.nodes[i].rep) == {0}
  {
    var first := AllServe();
    var login := LoginRuns();
    AllAcked();
    RunAppend(Initial(3), first, login);
    var c := Run(ALL_SERVED, login);
    JoinRuns(c, 0, 0);
    RunAppend(Initial(3), first + login, [ApplyLogin(0)]);
    var c0 := Run(c, [ApplyLogin(0)]);
    JoinRuns(c0, 1, -1);
    RunAppend(Initial(3), first + login + [ApplyLogin(0)], [ApplyLogin(1)]);
    var c1 := Run(c0, [ApplyLogin(1)]);
    JoinRuns(c1, 2, -1);
    RunAppend(Initial(3), first + login + [ApplyLogin(0)] + [ApplyLogin(1)], [ApplyLogin(2)]);
    steps := first + login + [ApplyLogin(0)] + [ApplyLogin(1)] + [ApplyLogin(2)];
    var c2 := Run(Initial(3), steps);
    assert c2.nodes == [Rejoined(0), Rejoined(-1), Rejoined(-1)];
    assert Ackers(c2, 0, 0) == Ackers(ALL_SERVED, 0, 0);
  }

  // ---------- the recovery watermark ----------

  /** A majority with its largest watermark. */
  ghost predicate Polled(c: Cluster, q: set<nat>, mark: int) {
    Majority(c, q) && IsMark(c, q, mark)
  }

  /** The slot is safe with this poll: a polled member holds it, every holder has it in its journal and keeps
      it when truncated to the mark, and no login since its session has cut it off or declared it Empty. */
  ghost predicate Recovers(c: Cluster, q: set<nat>, mark: int, term: nat, d: int)
    requires Majority(c, q)
  {
    && HeldBySome(c, q, d)
    && (forall i: nat :: i < |c.nodes| && d in Held(c.nodes[i].rep) ==>
          d in c.nodes[i].journal && d in Held(Apply(c.nodes[i].rep, Truncate(mark))))
    && d <= mark
    && (forall k :: term <= k < |c.logins| ==> d <= c.logins[k].mark && d !in c.logins[k].verdict)
  }

  lemma WatermarkReaches(c: Cluster, q: set<nat>, mark: int, term: nat, d: int)
    requires ClusterInv(c) && Polled(c, q, mark) && MajorityAcked(c, term, d)
    ensures Recovers(c, q, mark, term, d)
  {
    var i := MajoritiesMeet(c, q, Ackers(c, term, d));
    var a := Ack(i, term, d);
    assert AckFine(c, a);
    forall k | term <= k < |Polls(c)|
      ensures !Kills(Polls(c)[k], d)
    {
      MajorityAckSurvives(c, term, d, k);
    }
    assert d in Held(c.nodes[i].rep);
    forall j: nat | j < |c.nodes| && d in Held(c.nodes[j].rep)
      ensures d in c.nodes[j].journal && d in Held(Apply(c.nodes[j].rep, Truncate(mark)))
    {
      assert NodeFine(c, j);
      TruncateKeepsPrefix(c.nodes[j].rep, mark);
    }
    forall k | term <= k < |c.logins|
      ensures d <= c.logins[k].mark && d !in c.logins[k].verdict
    {
      assert Polls(c)[k] == c.logins[k];
    }
  }

  lemma InitialInv(n: nat)
    ensures ClusterInv(Initial(n))
  {
  }

  /** The recovery watermark.  In every reachable state, for every slot that a majority acknowledged and
      every majority that is polled: some polled member still holds the slot and has it in its journal,
      the largest polled `last_append_lsn` reaches it, truncating any holder to that mark keeps it, and
      no login so far has cut it off or declared it Empty. */
  lemma RecoveryWatermark(n: nat, steps: seq<Step>, q: set<nat>, mark: int, term: nat, d: int)
    requires ValidRun(Initial(n), steps)
    ensures var c := Run(Initial(n), steps);
            Polled(c, q, mark) && MajorityAcked(c, term, d) ==> Recovers(c, q, mark, term, d)
  {
    var c := Run(Initial(n), steps);
    InitialInv(n);
    RunKeepsInv(Initial(n), steps);
    if Polled(c, q, mark) && MajorityAcked(c, term, d) {
      WatermarkReaches(c, q, mark, term, d);
    }
  }

  /** The evidence behind an Empty verdict is sound: a slot that no polled member holds was not
      acknowledged by a majority in any session. */
  lemma UnheldWasNeverMajorityAcked(n: nat, steps: seq<Step>, q: set<nat>, term: nat, d: int)
    requires ValidRun(Initial(n), steps)
    requires Majority(Run(Initial(n), steps), q)
    requires !HeldBySome(Run(Initial(n), steps), q, d)
    ensures !Majority(Run(Initial(n), steps), Ackers(Run(Initial(n), steps), term, d))
  {
    var c := Run(Initial(n), steps);
    InitialInv(n);
    RunKeepsInv(Initial(n), steps);
    if Majority(c, Ackers(c, term, d)) {
      var i := MajoritiesMeet(c, q, Ackers(c, term, d));
      assert AckFine(c, Ack(i, term, d));
      var k :| term <= k < c.nodes[i].rep.term && Kills(Polls(c)[k], d);
      MajorityAckSurvives(c, term, d, k);
      assert false;
    }
  }

  /** The largest watermark of every polled majority reaches what any replica has committed, so a truncation
      to it never cuts into a committed prefix. */
  lemma MarkReachesCommit(n: nat, steps: seq<Step>, q: set<nat>, mark: int, i: nat)
    requires ValidRun(Initial(n), steps) && i < |Run(Initial(n), steps).nodes|
    ensures Polled(Run(Initial(n), steps), q, mark) ==> Run(Initial(n), steps).nodes[i].rep.commit <= mark
  {
    var c := Run(Initial(n), steps);
    InitialInv(n);
    RunKeepsInv(Initial(n), steps);
    if Polled(c, q, mark) {
      assert NodeFine(c, i);
      var commit := c.nodes[i].rep.commit;
      if commit == -1 {
        var top :| top in q && c.nodes[top].rep.last == mark;
        assert NodeFine(c, top);
      } else {
        var t :| 0 <= t <= c.nodes[i].rep.term && MajorityAcked(c, t, commit);
        WatermarkReaches(c, q, mark, t, commit);
      }
    }
  }

  /** Every replica can always apply the next committed login: the truncation it asks for is fenced, and not
      below what the replica has committed. */
  lemma LoginIsAlwaysApplicable(c: Cluster, i: nat)
    requires ClusterInv(c) && i < |c.nodes| && c.nodes[i].rep.term < |c.logins|
    ensures CanMove(c, ApplyLogin(i))
  {
    var t := c.nodes[i].rep.term;
    assert NodeFine(c, i);
    CommitBelowLogin(c, i);
    JoinedHolds(c.nodes[i], c.logins[t]);
  }
}
