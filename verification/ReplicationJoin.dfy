/** When a follower may be counted in sync: what a quiet follower must hold, exactly, for the logs to
    agree and for the acknowledgements to be kept in every run that follows. */
module ReplicationJoin {
  import opened Log
  import opened Replication
  import opened ReplicationInvariant
  import opened ReplicationOrigin
  import opened ReplicationSafety

  /** A run that starts in a given state. */
  ghost predicate RunFrom(s: State, states: seq<State>, steps: seq<Step>) {
    && |states| == |steps| + 1
    && states[0] == s
    && forall i :: 0 <= i < |steps| ==> RunsStep(states, steps, i)
  }

  function Joined(s: State, n: NodeId): State {
    s.(isr := s.isr + {n})
  }

  ghost predicate AgreesThroughout(states: seq<State>) {
    forall i :: 0 <= i < |states| ==> LogAgreement(states[i])
  }

  lemma {:induction false} OriginFrom(s: State, lost: set<CallId>, states: seq<State>, steps: seq<Step>, i: nat)
    returns (lost': set<CallId>)
    requires RunFrom(s, states, steps) && FixedIsr(steps) && OriginInv(s, lost) && i < |states|
    ensures OriginInv(states[i], lost')
  {
    hide OriginInv, Enabled, Apply;
    lost' := lost;
    if i > 0 {
      lost' := OriginFrom(s, lost, states, steps, i - 1);
      assert RunsStep(states, steps, i - 1);
      lost' := OriginKeeps(states[i - 1], lost', steps[i - 1]);
    }
  }

  /** A quiet follower may be counted in sync, as far as the logs are concerned, exactly when its log
      agrees with the leader's at that moment: the leader's log is a prefix of it and it has at most one
      record more. Then, and only then, the logs agree in every state of every run that follows. It may
      be the first follower that is counted. */
  lemma JoinKeepsAgreementIff(s: State, lost: set<CallId>, n: NodeId)
    requires OriginInv(s, lost) && Quiet(s, n)
    ensures (forall states: seq<State>, steps: seq<Step> :: RunFrom(Joined(s, n), states, steps) && FixedIsr(steps)
                                     ==> AgreesThroughout(states))
            <==> Agrees(s, n)
  {
    hide OriginInv, JoinSound;
    if Agrees(s, n) {
      QuietFollowerMayJoin(s, n);
      var lost' := OriginKeeps(s, lost, JoinIsr(n));
      forall states: seq<State>, steps: seq<Step> | RunFrom(Joined(s, n), states, steps) && FixedIsr(steps)
        ensures AgreesThroughout(states)
      {
        forall i | 0 <= i < |states| ensures LogAgreement(states[i]) {
          var later := OriginFrom(Joined(s, n), lost', states, steps, i);
          RelabelAgrees(states[i], later);
        }
      }
    } else {
      var states, steps: seq<Step> := [Joined(s, n)], [];
      assert !Agrees(states[0], n);
      assert RunFrom(Joined(s, n), states, steps) && FixedIsr(steps) && !LogAgreement(states[0]);
    }
  }

  // --- Acknowledgements ---

  /** The leader and the follower hold every record that has been acknowledged so far. */
  ghost predicate HoldsAcknowledged(s: State, n: NodeId)
    requires n in s.followers
  {
    forall c :: Acknowledged(s, c) ==>
      LeaderHolds(s, c) && HoldsAt(s.followers[n].log, s.calls[c].target, EntryOf(s, c))
  }

  /** The record of call `c` is the last one of follower `n`, at the leader's next offset. */
  predicate Tops(s: State, n: NodeId, c: CallId)
    requires n in s.followers && c in s.calls
  {
    var l, t := s.followers[n].log, s.calls[c].target;
    t == s.leader.Next() && l.Next() == t + 1 && l.recs != [] && l.recs[|l.recs| - 1] == EntryOf(s, c)
  }

  /** What holds of a follower that was counted in sync with every acknowledged record, although its
      log need not agree with the leader's. */
  ghost predicate CountedInv(s: State, n: NodeId) {
    && n in s.isr && n in s.followers && HoldsAcknowledged(s, n)
    && (forall c :: c in s.calls && Live(s.calls[c]) ==> n in s.calls[c].isr)
    && (forall c :: AckedBy(s, n, c) ==> s.calls[c].target < s.leader.Next() || Tops(s, n, c))
    && (forall c :: Envelope(c, n) in s.invalidations ==> c in s.calls && s.calls[c].phase.Failed? && Tops(s, n, c))
  }

  predicate FixedStep(step: Step) {
    !step.LeaveIsr? && !step.JoinIsr?
  }

  predicate StillHolds(s: State, n: NodeId, c: CallId)
    requires n in s.followers && c in s.calls
  {
    LeaderHolds(s, c) && HoldsAt(s.followers[n].log, s.calls[c].target, EntryOf(s, c))
  }

  /** What a step needs to keep this: a call that may commit is at the leader's end. */
  ghost predicate Counting(s: State, n: NodeId) {
    && EarlyInv(s) && CountedInv(s, n)
    && forall c :: c in s.calls && s.calls[c].phase.Committing? ==> s.calls[c].target == s.leader.Next()
  }

  lemma OneOnTop(s: State, n: NodeId, c: CallId, d: CallId)
    requires n in s.followers && c in s.calls && d in s.calls && Tops(s, n, c) && Tops(s, n, d)
    ensures c == d
  {
  }

  /** The leader's own record: with every ack in, the follower's last record is the one to commit. */
  lemma CommittingTops(s: State, n: NodeId, c: CallId)
    requires Counting(s, n) && c in s.calls && s.calls[c].phase.Committing?
    ensures AckedBy(s, n, c) && Tops(s, n, c) && CallBounds(s, c)
    ensures EntryOutcomeOf(s.leader, s.calls[c].target) == Applied
    ensures forall d :: Envelope(d, n) !in s.invalidations
    ensures forall d :: AckedBy(s, n, d) && d != c ==> s.calls[d].target < s.leader.Next()
  {
    assert CallBounds(s, c);
    assert AckedBy(s, n, c);
    forall d | AckedBy(s, n, d) && d != c ensures s.calls[d].target < s.leader.Next() {
      if Tops(s, n, d) {
        OneOnTop(s, n, c, d);
      }
    }
    forall d ensures Envelope(d, n) !in s.invalidations {
      if Envelope(d, n) in s.invalidations {
        OneOnTop(s, n, c, d);
      }
    }
  }

  lemma CommitCounted(s: State, n: NodeId, c: CallId, fault: CommitFault)
    requires Counting(s, n) && Enabled(s, Commit(c, fault))
    ensures CountedInv(AfterCommit(s, c, fault), n)
  {
    CommittingTops(s, n, c);
    hide EarlyInv;
    var s' := AfterCommit(s, c, fault);
    forall d | Acknowledged(s', d) ensures StillHolds(s', n, d) {
      assert d != c ==> Acknowledged(s, d) && StillHolds(s, n, d);
    }
    forall d | AckedBy(s', n, d) ensures s'.calls[d].target < s'.leader.Next() {
      assert AckedBy(s, n, d) && d != c;
    }
  }

  lemma PushCounted(s: State, n: NodeId, e: Envelope)
    requires Counting(s, n) && Enabled(s, DeliverPush(e))
    ensures CountedInv(AfterDeliverPush(s, e), n)
  {
    assert CallBounds(s, e.call);
    hide EarlyInv;
    var s' := AfterDeliverPush(s, e);
    forall d | AckedBy(s', n, d) ensures s'.calls[d].target < s'.leader.Next() || Tops(s', n, d) {
      assert d != e.call ==> AckedBy(s, n, d);
      assert d == e.call && !(e.node == n && Accepts(s, e)) ==> AckedBy(s, n, d);
    }
    forall d | Acknowledged(s', d) ensures StillHolds(s', n, d) {
      assert Acknowledged(s, d) && StillHolds(s, n, d);
    }
  }

  /** A rollback on the follower takes back its record past the leader's log, which nobody acknowledged. */
  lemma RollbackCounted(s: State, n: NodeId, e: Envelope, lastActive: bool)
    requires Counting(s, n) && Enabled(s, DeliverInvalidation(e, lastActive))
    ensures CountedInv(AfterDeliverInvalidation(s, e, lastActive), n)
  {
    hide EarlyInv;
    var s' := AfterDeliverInvalidation(s, e, lastActive);
    forall d | Acknowledged(s', d) ensures StillHolds(s', n, d) {
      assert Acknowledged(s, d) && StillHolds(s, n, d);
    }
    forall d | AckedBy(s', n, d) ensures s'.calls[d].target < s'.leader.Next() || Tops(s', n, d) {
      assert AckedBy(s, n, d);
      if e.node == n && Tops(s, n, d) {
        OneOnTop(s, n, e.call, d);
      }
    }
    forall d | Envelope(d, n) in s'.invalidations ensures d in s'.calls && s'.calls[d].phase.Failed? && Tops(s', n, d) {
      if e.node == n {
        OneOnTop(s, n, e.call, d);
      }
    }
  }

  /** Catch-up writes only below the leader's end, so never past a record of a waiting call. */
  lemma FetchCounted(s: State, n: NodeId, m: NodeId)
    requires Counting(s, n) && Enabled(s, ApplyFetched(m))
    ensures CountedInv(Apply(s, ApplyFetched(m)), n)
  {
    var s' := Apply(s, ApplyFetched(m));
    assert FetchInv(s.leader, s.followers[m]);
    hide EarlyInv, FetchInv, Slice;
    forall d | Acknowledged(s', d) ensures StillHolds(s', n, d) {
      assert Acknowledged(s, d) && StillHolds(s, n, d);
    }
    forall d | AckedBy(s', n, d) ensures s'.calls[d].target < s'.leader.Next() || Tops(s', n, d) {
      assert AckedBy(s, n, d);
    }
  }

  lemma BeginCounted(s: State, n: NodeId, c: CallId)
    requires Counting(s, n) && Enabled(s, Begin(c))
    ensures CountedInv(AfterBegin(s, c), n)
  {
    var s' := AfterBegin(s, c);
    forall d | Acknowledged(s', d) ensures StillHolds(s', n, d) {
      assert Acknowledged(s, d) && StillHolds(s, n, d);
    }
    forall d | AckedBy(s', n, d) ensures s'.calls[d].target < s'.leader.Next() || Tops(s', n, d) {
      assert AckedBy(s, n, d);
    }
  }

  lemma SendCounted(s: State, n: NodeId, c: CallId, timestamp: int, payload: seq<Byte>, targets: set<NodeId>)
    requires Counting(s, n) && Enabled(s, Push(c, timestamp, payload, targets))
    ensures CountedInv(AfterPushes(s, c, timestamp, payload, targets), n)
  {
    var s' := AfterPushes(s, c, timestamp, payload, targets);
    forall d | Acknowledged(s', d) ensures StillHolds(s', n, d) {
      assert Acknowledged(s, d) && StillHolds(s, n, d);
    }
    forall d | AckedBy(s', n, d) ensures s'.calls[d].target < s'.leader.Next() || Tops(s', n, d) {
      assert AckedBy(s, n, d);
    }
  }

  lemma AckCounted(s: State, n: NodeId, e: Envelope)
    requires Counting(s, n) && Enabled(s, DeliverAck(e))
    ensures CountedInv(AfterDeliverAck(s, e), n)
  {
    var s' := AfterDeliverAck(s, e);
    forall d | Acknowledged(s', d) ensures StillHolds(s', n, d) {
      assert Acknowledged(s, d) && StillHolds(s, n, d);
    }
    forall d | AckedBy(s', n, d) ensures s'.calls[d].target < s'.leader.Next() || Tops(s', n, d) {
      assert AckedBy(s, n, d);
    }
  }

  lemma DecideCounted(s: State, n: NodeId, c: CallId)
    requires Counting(s, n) && Enabled(s, Decide(c))
    ensures CountedInv(AfterDecide(s, c), n)
  {
    var s' := AfterDecide(s, c);
    forall d | Acknowledged(s', d) ensures StillHolds(s', n, d) {
      assert Acknowledged(s, d) && StillHolds(s, n, d);
    }
    forall d | AckedBy(s', n, d) ensures s'.calls[d].target < s'.leader.Next() || Tops(s', n, d) {
      assert AckedBy(s, n, d);
    }
  }

  lemma CrashCounted(s: State, n: NodeId)
    requires Counting(s, n)
    ensures CountedInv(AfterLeaderCrash(s), n)
  {
    var s' := AfterLeaderCrash(s);
    forall d | Acknowledged(s', d) ensures StillHolds(s', n, d) {
      assert Acknowledged(s, d) && StillHolds(s, n, d);
    }
    assert forall d :: !AckedBy(s', n, d);
  }

  /** Steps of the network and of the followers that change no log. */
  lemma QuietStepCounted(s: State, n: NodeId, s': State)
    requires Counting(s, n)
    requires s'.leader == s.leader && s'.isr == s.isr && s'.calls == s.calls && s'.acks <= s.acks && s'.invalidations <= s.invalidations
    requires n in s'.followers && s'.followers[n].log == s.followers[n].log
    ensures CountedInv(s', n)
  {
    hide EarlyInv;
    forall d | Acknowledged(s', d) ensures StillHolds(s', n, d) {
      assert Acknowledged(s, d) && StillHolds(s, n, d);
    }
    forall d | AckedBy(s', n, d) ensures s'.calls[d].target < s'.leader.Next() || Tops(s', n, d) {
      assert AckedBy(s, n, d);
    }
  }

  lemma StepCounted(s: State, n: NodeId, step: Step)
    requires Counting(s, n) && Enabled(s, step) && FixedStep(step)
    ensures CountedInv(Apply(s, step), n)
  {
    assert n in s.followers by {
      assert CountedInv(s, n);
    }
    hide Counting, CountedInv, AfterBegin, AfterPushes, AfterDeliverPush, AfterDeliverAck, AfterDecide, AfterCommit,
         AfterDeliverInvalidation, AfterLeaderCrash, Batch;
    match step
    case Commit(c, fault) => CommitCounted(s, n, c, fault);
    case DeliverPush(e) => PushCounted(s, n, e);
    case DeliverInvalidation(e, lastActive) => RollbackCounted(s, n, e, lastActive);
    case ApplyFetched(m) => FetchCounted(s, n, m);
    case Begin(c) => BeginCounted(s, n, c);
    case Push(c, timestamp, payload, targets) => SendCounted(s, n, c, timestamp, payload, targets);
    case DeliverAck(e) => AckCounted(s, n, e);
    case Decide(c) => DecideCounted(s, n, c);
    case LeaderCrash => CrashCounted(s, n);
    case LeaveIsr(_) =>
    case JoinIsr(_) =>
    case _ => QuietStepCounted(s, n, Apply(s, step));
  }

  // --- Beside other members ---

  /** The state as if only `q` were in sync. */
  function Base(s: State, q: set<NodeId>): State {
    s.(isr := q)
  }

  ghost predicate JoinInv(s: State, q: set<NodeId>, n: NodeId) {
    Inv(Base(s, q)) && s.isr == q + {n} && CountedInv(s, n)
  }

  /** A larger in-sync set makes new calls wait for more, and changes no other step. */
  lemma BaseKeeps(s: State, q: set<NodeId>, step: Step)
    requires Inv(Base(s, q)) && q <= s.isr && Enabled(s, step) && FixedStep(step)
    ensures Inv(Base(Apply(s, step), q)) && Apply(s, step).isr == s.isr
  {
    if step.Begin? {
      BeginWider(s, q, step.call);
    } else {
      hide Inv;
      assert Enabled(Base(s, q), step);
      StepKeeps(Base(s, q), step);
      assert Apply(Base(s, q), step) == Base(Apply(s, step), q);
    }
  }

  lemma BeginWider(s: State, q: set<NodeId>, c: CallId)
    requires Inv(Base(s, q)) && q <= s.isr && Enabled(s, Begin(c))
    ensures Inv(Base(AfterBegin(s, c), q))
  {
    var b, b' := Base(s, q), Base(AfterBegin(s, c), q);
    forall m | m in b'.isr ensures MemberInv(b', m) {
      assert MemberInv(b, m);
      forall d | AckedBy(b', m, d) ensures HoldsOneMore(b', m, d) {
        assert Envelope(c, m) !in b.acks;
        assert d != c && AckedBy(b, m, d);
      }
    }
    forall d | d in b'.calls ensures CallInv(b', d) {
      assert d != c ==> CallInv(b, d);
    }
  }

  lemma JoinedCounts(s: State, q: set<NodeId>, n: NodeId)
    requires JoinInv(s, q, n)
    ensures Counting(s, n)
  {
    forall c | c in s.calls ensures CallBounds(s, c) {
      assert CallInv(Base(s, q), c);
    }
    forall c | c in s.calls && s.calls[c].phase.Committing? ensures s.calls[c].target == s.leader.Next() {
      CommittingIsAlone(Base(s, q), c);
    }
  }

  lemma JoinedStepKeeps(s: State, q: set<NodeId>, n: NodeId, step: Step)
    requires JoinInv(s, q, n) && Enabled(s, step) && FixedStep(step)
    ensures JoinInv(Apply(s, step), q, n)
  {
    hide Inv, CountedInv, Counting, Apply, Enabled;
    BaseKeeps(s, q, step);
    JoinedCounts(s, q, n);
    StepCounted(s, n, step);
  }

  // --- As the only member ---

  /** An unfinished call is for the leader's end, or the follower has passed its offset without it. */
  ghost predicate NoStale(s: State, n: NodeId)
    requires n in s.followers
  {
    forall c :: c in s.calls && Live(s.calls[c]) && !s.calls[c].phase.Started? ==>
      || s.calls[c].target == s.leader.Next()
      || (s.calls[c].target < s.followers[n].log.Next() && !AckedBy(s, n, c))
  }

  ghost predicate SoleInv(s: State, n: NodeId) {
    s.isr == {n} && EarlyInv(s) && CountedInv(s, n) && NoStale(s, n)
  }

  lemma SoleCounts(s: State, n: NodeId)
    requires SoleInv(s, n)
    ensures Counting(s, n)
  {
    forall c | c in s.calls && s.calls[c].phase.Committing? ensures s.calls[c].target == s.leader.Next() {
      assert CallBounds(s, c);
      assert AckedBy(s, n, c);
    }
  }

  lemma CommitNotStale(s: State, n: NodeId, c: CallId, fault: CommitFault)
    requires SoleInv(s, n) && Enabled(s, Commit(c, fault))
    ensures NoStale(AfterCommit(s, c, fault), n)
  {
    SoleCounts(s, n);
    CommittingTops(s, n, c);
    hide EarlyInv, CountedInv;
    var s' := AfterCommit(s, c, fault);
    forall d | AckedBy(s', n, d) ensures AckedBy(s, n, d) && d != c {
    }
  }

  lemma LogStepNotStale(s: State, n: NodeId, step: Step)
    requires SoleInv(s, n) && Enabled(s, step) && (step.DeliverPush? || step.DeliverInvalidation? || step.ApplyFetched?)
    ensures n in Apply(s, step).followers && NoStale(Apply(s, step), n)
  {
    hide EarlyInv, Slice;
    var s' := Apply(s, step);
    forall d | d in s'.calls && Live(s'.calls[d]) && !s'.calls[d].phase.Started?
      ensures s'.calls[d].target == s'.leader.Next()
              || (s'.calls[d].target < s'.followers[n].log.Next() && !AckedBy(s', n, d))
    {
      assert AckedBy(s', n, d) && !AckedBy(s, n, d) ==> step.DeliverPush? && step.envelope == Envelope(d, n);
    }
  }

  lemma OtherNotStale(s: State, n: NodeId, step: Step)
    requires SoleInv(s, n) && Enabled(s, step) && FixedStep(step) && !step.Commit?
    requires !step.DeliverPush? && !step.DeliverInvalidation? && !step.ApplyFetched?
    ensures n in Apply(s, step).followers && NoStale(Apply(s, step), n)
  {
    assert SentInv(s) && n in s.followers;
    hide EarlyInv, CountedInv, Batch, Slice;
    var s' := Apply(s, step);
    forall d | d in s'.calls && Live(s'.calls[d]) && !s'.calls[d].phase.Started?
      ensures s'.calls[d].target == s'.leader.Next()
              || (s'.calls[d].target < s'.followers[n].log.Next() && !AckedBy(s', n, d))
    {
      assert AckedBy(s', n, d) ==> AckedBy(s, n, d);
    }
  }

  lemma SoleStepKeeps(s: State, n: NodeId, step: Step)
    requires SoleInv(s, n) && Enabled(s, step) && FixedStep(step)
    ensures SoleInv(Apply(s, step), n)
  {
    EarlyKeeps(s, step);
    SoleCounts(s, n);
    StepCounted(s, n, step);
    if step.Commit? {
      CommitNotStale(s, n, step.call, step.fault);
    } else if step.DeliverPush? || step.DeliverInvalidation? || step.ApplyFetched? {
      LogStepNotStale(s, n, step);
    } else {
      OtherNotStale(s, n, step);
    }
    hide EarlyInv, CountedInv, NoStale, Counting, Batch, Slice;
    assert Apply(s, step).isr == s.isr;
  }

  // --- Both ---

  /** A follower that was counted with every acknowledged record, beside others or alone. */
  ghost predicate Counted(s: State, q: set<NodeId>, n: NodeId) {
    if q == {} then SoleInv(s, n) else JoinInv(s, q, n)
  }

  lemma {:induction false} CountedAlong(s: State, q: set<NodeId>, n: NodeId, states: seq<State>, steps: seq<Step>, i: nat)
    requires RunFrom(s, states, steps) && FixedIsr(steps) && Counted(s, q, n) && i < |states|
    ensures Counted(states[i], q, n)
  {
    hide JoinInv, SoleInv, Enabled, Apply;
    if i > 0 {
      CountedAlong(s, q, n, states, steps, i - 1);
      assert RunsStep(states, steps, i - 1);
      if q == {} {
        SoleStepKeeps(states[i - 1], n, steps[i - 1]);
      } else {
        JoinedStepKeeps(states[i - 1], q, n, steps[i - 1]);
      }
    }
  }

  lemma {:induction false} AcknowledgedFrom(s: State, states: seq<State>, steps: seq<Step>, i: nat, j: nat, c: CallId)
    requires RunFrom(s, states, steps) && i <= j < |states| && Acknowledged(states[i], c)
    ensures Acknowledged(states[j], c) && states[j].calls[c] == states[i].calls[c]
    decreases j
  {
    if i < j {
      AcknowledgedFrom(s, states, steps, i, j - 1, c);
      assert RunsStep(states, steps, j - 1);
      AcknowledgedStays(states[j - 1], steps[j - 1], c);
    }
  }

  lemma CountedIsDurable(s: State, q: set<NodeId>, n: NodeId, c: CallId)
    requires Counted(s, q, n) && Acknowledged(s, c)
    ensures Durable(s, c)
    ensures forall d :: Acknowledged(s, d) && d != c ==> s.calls[d].target != s.calls[c].target
  {
    assert CountedInv(s, n) && StillHolds(s, n, c);
    if q != {} {
      AcknowledgedIsDurable(Base(s, q), c);
    }
    forall d | Acknowledged(s, d) && d != c ensures s.calls[d].target != s.calls[c].target {
      assert StillHolds(s, n, d);
    }
  }

  lemma PromisesKept(s: State, q: set<NodeId>, n: NodeId, states: seq<State>, steps: seq<Step>)
    requires RunFrom(s, states, steps) && FixedIsr(steps) && Counted(s, q, n)
    ensures KeepsItsPromises(states)
  {
    hide Counted, Durable, RunFrom;
    forall i, j, c | 0 <= i <= j < |states| && Acknowledged(states[i], c) ensures Durable(states[j], c) {
      AcknowledgedFrom(s, states, steps, i, j, c);
      CountedAlong(s, q, n, states, steps, j);
      CountedIsDurable(states[j], q, n, c);
    }
    forall i, c, d | 0 <= i < |states| && Acknowledged(states[i], c) && Acknowledged(states[i], d) && c != d
      ensures states[i].calls[c].target != states[i].calls[d].target
    {
      CountedAlong(s, q, n, states, steps, i);
      CountedIsDurable(states[i], q, n, c);
    }
  }

  /** If the leader holds all that was acknowledged, no call has to be given up. */
  lemma CallNotLost(s: State, lost: set<CallId>, c: CallId)
    requires OriginInv(s, lost) && s.isr != {} && c in s.calls
    requires Acknowledged(s, c) ==> LeaderHolds(s, c)
    ensures CallInv(s, c)
  {
    assert CallInv(Relabel(s, lost), c) && CallBounds(s, c);
  }

  lemma MemberNotLost(s: State, lost: set<CallId>, n: NodeId)
    requires OriginInv(s, lost) && n in s.isr
    ensures MemberInv(s, n)
  {
    var r := Relabel(s, lost);
    assert MemberInv(r, n);
    forall c | AckedBy(s, n, c) ensures HoldsOneMore(s, n, c) {
      assert AckedBy(r, n, c);
    }
  }

  lemma NothingLost(s: State, lost: set<CallId>)
    requires OriginInv(s, lost) && s.isr != {} && forall c :: Acknowledged(s, c) ==> LeaderHolds(s, c)
    ensures Inv(s)
  {
    hide MemberInv, CallInv, CallBounds, AllPassed;
    forall c | c in s.calls ensures CallInv(s, c) {
      assert Acknowledged(s, c) ==> LeaderHolds(s, c);
      CallNotLost(s, lost, c);
    }
    forall n | n in s.isr ensures MemberInv(s, n) {
      MemberNotLost(s, lost, n);
    }
  }

  /** Whatever the leader's end has passed since a call chose its offset is acknowledged, so the follower holds it. */
  lemma NothingStale(s: State, n: NodeId)
    requires EarlyInv(s) && AllPassed(s) && Quiet(s, n) && HoldsAcknowledged(s, n)
    ensures NoStale(s, n) && NoStale(Joined(s, n), n)
  {
    assert forall d :: !AckedBy(s, n, d);
    assert forall d :: !AckedBy(Joined(s, n), n, d);
    forall c | c in s.calls && s.calls[c].target < s.leader.Next()
      ensures s.calls[c].target < s.followers[n].log.Next()
    {
      var d :| Acknowledged(s, d) && s.calls[d].target == s.calls[c].target && LeaderHolds(s, d);
      assert StillHolds(s, n, d);
    }
    forall c | c in s.calls ensures s.calls[c].target <= s.leader.Next() {
      BoundOf(s, c);
    }
  }

  lemma CountingStarts(s: State, lost: set<CallId>, n: NodeId)
    requires OriginInv(s, lost) && Quiet(s, n) && HoldsAcknowledged(s, n)
    ensures Counted(Joined(s, n), s.isr, n)
  {
    var t := Joined(s, n);
    assert forall d :: !AckedBy(t, n, d);
    assert forall d :: Acknowledged(t, d) ==> Acknowledged(s, d) && StillHolds(s, n, d);
    if s.isr == {} {
      NothingStale(s, n);
      assert t.isr == {n};
      assert forall c :: c in s.calls ==> CallBounds(s, c);
    } else {
      NothingLost(s, lost);
      assert Base(t, s.isr) == s;
    }
  }

  lemma NotHeldNotDurable(s: State, n: NodeId, c: CallId)
    requires n in s.followers && c in s.calls && !StillHolds(s, n, c)
    ensures !Durable(Joined(s, n), c)
  {
    var t := Joined(s, n);
    assert n in t.isr && EntryOf(t, c) == EntryOf(s, c) && t.calls[c].target == s.calls[c].target;
  }

  /** A quiet follower may be counted in sync, as far as acknowledgements are concerned, exactly when the
      leader and it hold every record that has been acknowledged so far: then, and only then, every run
      that follows keeps all its promises, earlier and later ones. It may be the first follower that is
      counted. */
  lemma JoinKeepsPromisesIff(s: State, lost: set<CallId>, n: NodeId)
    requires OriginInv(s, lost) && Quiet(s, n)
    ensures (forall states: seq<State>, steps: seq<Step> :: RunFrom(Joined(s, n), states, steps) && FixedIsr(steps)
                                     ==> KeepsItsPromises(states))
            <==> HoldsAcknowledged(s, n)
  {
    hide OriginInv;
    var t := Joined(s, n);
    if HoldsAcknowledged(s, n) {
      CountingStarts(s, lost, n);
      forall states: seq<State>, steps: seq<Step> | RunFrom(t, states, steps) && FixedIsr(steps)
        ensures KeepsItsPromises(states)
      {
        PromisesKept(t, s.isr, n, states, steps);
      }
    } else {
      var c :| Acknowledged(s, c) && !StillHolds(s, n, c);
      var states, steps: seq<Step> := [t], [];
      NotHeldNotDurable(s, n, c);
      assert Acknowledged(states[0], c) && !Durable(states[0], c);
      assert RunFrom(t, states, steps) && FixedIsr(steps) && !KeepsItsPromises(states);
    }
  }

  // --- A call that does not wait for the joiner ---

  function StaleStep(i: nat): Step {
    var e := Envelope(1, 1);
    [Begin(1), JoinIsr(2), Push(1, 0, [], {1}), DeliverPush(e), DeliverAck(e), Decide(1), Commit(1, NoCommitFault)]
    [if i < 7 then i else 6]
  }

  /** The state after the first i steps. */
  function StaleRun(i: nat): State {
    var recs, e := [Entry(1, Message(0, 0, []))], Envelope(1, 1);
    var phase := if i < 3 then Started else if i < 6 then Pushing else if i < 7 then Committing else Succeeded;
    var call := Call(phase, {1}, 0, Message(0, 0, []), if i < 3 then {} else {1}, if i < 5 then {} else {1});
    State(Log(0, if i < 7 then [] else recs),
          map[1 := Follower(Log(0, if i < 4 then [] else recs), true, NoFetch, true),
              2 := Follower(Log(0, []), true, NoFetch, true)],
          if i < 2 then {1} else {1, 2}, if i < 1 then map[] else map[1 := call],
          if i == 3 then {e} else {}, if i == 4 then {e} else {}, {})
  }

  lemma StaleRunJoins(i: nat)
    requires i < 2
    ensures Enabled(StaleRun(i), StaleStep(i)) && Apply(StaleRun(i), StaleStep(i)) == StaleRun(i + 1)
  {
    SameState(Apply(StaleRun(i), StaleStep(i)), StaleRun(i + 1));
  }

  lemma StaleRunPushes(i: nat)
    requires 2 <= i < 4
    ensures Enabled(StaleRun(i), StaleStep(i)) && Apply(StaleRun(i), StaleStep(i)) == StaleRun(i + 1)
  {
    assert EnvelopesTo(1, {1}) == {Envelope(1, 1)};
    SameState(Apply(StaleRun(i), StaleStep(i)), StaleRun(i + 1));
  }

  lemma StaleRunEnds(i: nat)
    requires 4 <= i < 7
    ensures Enabled(StaleRun(i), StaleStep(i)) && Apply(StaleRun(i), StaleStep(i)) == StaleRun(i + 1)
  {
    var none: set<NodeId> := {};
    assert none + {1} == {1};
    SameState(Apply(StaleRun(i), StaleStep(i)), StaleRun(i + 1));
  }

  /** Waiting matters: a follower that has the leader's very log joins while a call that does not wait
      for it is unfinished; the call commits without it, and an acknowledged record is missing on an
      in-sync follower. */
  lemma StaleCallBreaksJoin() returns (states: seq<State>, steps: seq<Step>)
    ensures Run(states, steps) && |steps| == 7 && steps[1] == JoinIsr(2)
    ensures FixedIsr(steps[..1]) && FixedIsr(steps[2..])
    ensures 2 !in states[1].isr && LogAgreement(states[1]) && states[1].followers.Keys == {1, 2}
            && states[1].followers[2].log == states[1].leader && states[1].acks == states[1].invalidations == {}
    ensures !LogAgreement(states[7]) && Acknowledged(states[7], 1) && !Durable(states[7], 1)
  {
    hide Apply, Enabled;
    states, steps := seq(8, i requires 0 <= i => StaleRun(i)), seq(7, i requires 0 <= i => StaleStep(i));
    forall i | 0 <= i < |steps| ensures RunsStep(states, steps, i) {
      if i < 2 {
        StaleRunJoins(i);
      } else if i < 4 {
        StaleRunPushes(i);
      } else {
        StaleRunEnds(i);
      }
    }
    assert !Agrees(states[7], 2);
  }
}
