/** Replication from the creation of a partition on, when only the leader is in sync: what holds whatever
    the in-sync set is, how the invariant starts with the first join, and what that means for whole runs. */
module ReplicationOrigin {
  import opened Log
  import opened Replication
  import opened ReplicationInvariant
  import opened ReplicationSafety

  predicate Finished(k: Call) {
    k.phase.Succeeded? || k.phase.Failed?
  }

  predicate CallBounds(s: State, c: CallId)
    requires c in s.calls
  {
    var k := s.calls[c];
    && s.leader.base <= k.target <= s.leader.Next() && k.msg.offset == k.target
    && (k.phase.Committing? ==> k.isr <= k.acked)
    && (k.phase.Succeeded? ==> k.target < s.leader.Next())
  }

  /** The leader holds the record of call `c` where the call said. */
  predicate LeaderHolds(s: State, c: CallId)
    requires c in s.calls
  {
    HoldsAt(s.leader, s.calls[c].target, EntryOf(s, c))
  }

  /** The leader has written the record of an acknowledged call at this offset. */
  ghost predicate Passed(s: State, offset: nat) {
    exists d :: Acknowledged(s, d) && s.calls[d].target == offset && LeaderHolds(s, d)
  }

  /** What holds whatever the in-sync set is. */
  ghost predicate EarlyInv(s: State) {
    && SentInv(s)
    && (forall c :: c in s.calls ==> CallBounds(s, c))
    && (forall n :: n in s.followers ==> FetchInv(s.leader, s.followers[n]))
  }

  /** The leader's end has passed an offset only by an acknowledged call's record. */
  ghost predicate AllPassed(s: State) {
    forall c :: c in s.calls && s.calls[c].target < s.leader.Next() ==> Passed(s, s.calls[c].target)
  }

  lemma EarlyStarts(s: State)
    requires Init(s)
    ensures EarlyInv(s)
  {
  }

  /** Steps of a call on the leader. */
  predicate CallStep(step: Step) {
    step.Begin? || step.Push? || step.DeliverAck? || step.Decide? || step.Commit? || step.LeaderCrash?
  }

  lemma OtherStep(s: State, step: Step)
    requires Enabled(s, step) && !CallStep(step)
    ensures Apply(s, step).calls == s.calls && Apply(s, step).leader == s.leader
    ensures Apply(s, step).pushes <= s.pushes && Apply(s, step).invalidations <= s.invalidations
    ensures Apply(s, step).acks <= s.acks + if step.DeliverPush? then {step.envelope} else {}
  {
    hide Batch, Slice;
  }

  lemma BoundsKeep(s: State, step: Step)
    requires EarlyInv(s) && Enabled(s, step)
    ensures forall c :: c in Apply(s, step).calls ==> CallBounds(Apply(s, step), c)
  {
    hide FetchInv, Batch, SentInv;
    var s' := Apply(s, step);
    if !CallStep(step) {
      OtherStep(s, step);
      hide Apply;
      assert forall c :: c in s.calls ==> CallBounds(s, c);
    } else {
      forall c | c in s'.calls ensures CallBounds(s', c) {
        assert c in s.calls ==> CallBounds(s, c);
      }
    }
  }

  lemma PassedStays(s: State, step: Step, offset: nat)
    requires Enabled(s, step) && Passed(s, offset)
    ensures Passed(Apply(s, step), offset)
  {
    hide Apply, Enabled;
    var d :| Acknowledged(s, d) && s.calls[d].target == offset && LeaderHolds(s, d);
    AcknowledgedStays(s, step, d);
    LeaderGrows(s, step);
    assert LeaderHolds(Apply(s, step), d);
  }

  /** The leader's end moves only when a call is acknowledged there. */
  lemma EndMoves(s: State, step: Step)
    requires EarlyInv(s) && Enabled(s, step) && Apply(s, step).leader != s.leader
    ensures Passed(Apply(s, step), s.leader.Next()) && Apply(s, step).leader.Next() == s.leader.Next() + 1
  {
    if CallStep(step) {
      hide FetchInv, SentInv, Passed;
      var c, s' := step.call, Apply(s, step);
      assert CallBounds(s, c);
      assert Acknowledged(s', c) && s'.calls[c].target == s.leader.Next() && LeaderHolds(s', c);
      PassedBy(s', c);
    } else {
      OtherStep(s, step);
    }
  }

  lemma PassedBy(s: State, d: CallId)
    requires Acknowledged(s, d) && LeaderHolds(s, d)
    ensures Passed(s, s.calls[d].target)
  {
  }

  /** A call keeps its offset, or it takes the leader's end. */
  lemma TargetKept(s: State, step: Step, c: CallId)
    requires Enabled(s, step) && c in Apply(s, step).calls
    ensures || (c in s.calls && Apply(s, step).calls[c].target == s.calls[c].target)
            || (Apply(s, step).calls[c].target == s.leader.Next() && Apply(s, step).leader == s.leader)
  {
    hide Batch, Slice;
  }

  lemma PassedKeep(s: State, step: Step)
    requires EarlyInv(s) && AllPassed(s) && Enabled(s, step)
    ensures AllPassed(Apply(s, step))
  {
    hide Apply, Enabled, Passed, CallBounds, SentInv, FetchInv;
    var s' := Apply(s, step);
    LeaderGrows(s, step);
    if s'.leader != s.leader {
      EndMoves(s, step);
    }
    forall c | c in s'.calls && s'.calls[c].target < s'.leader.Next() ensures Passed(s', s'.calls[c].target) {
      TargetKept(s, step, c);
      BoundOf(s, c);
      if c in s.calls && s'.calls[c].target == s.calls[c].target && s.calls[c].target < s.leader.Next() {
        PassedStays(s, step, s.calls[c].target);
      }
    }
  }

  lemma BoundOf(s: State, c: CallId)
    requires EarlyInv(s)
    ensures c in s.calls ==> s.calls[c].target <= s.leader.Next()
  {
    assert c in s.calls ==> CallBounds(s, c);
  }

  lemma SentKeep(s: State, step: Step)
    requires SentInv(s) && Enabled(s, step)
    ensures SentInv(Apply(s, step))
  {
    if !CallStep(step) {
      OtherStep(s, step);
      assert step.DeliverPush? ==> step.envelope in s.pushes;
      hide Apply, Enabled;
    } else {
      CallStepSent(s, step);
    }
  }

  lemma CallStepSent(s: State, step: Step)
    requires SentInv(s) && Enabled(s, step) && CallStep(step)
    ensures SentInv(Apply(s, step))
  {
    hide Batch, Slice;
  }

  lemma EarlyKeeps(s: State, step: Step)
    requires EarlyInv(s) && Enabled(s, step)
    ensures EarlyInv(Apply(s, step))
  {
    hide Apply, Enabled, SentInv, CallBounds, FetchInv;
    BoundsKeep(s, step);
    SentKeep(s, step);
    FetchesStay(s, step);
  }

  // --- Giving up earlier acknowledgements ---

  /** The state with some finished calls counted as failed: no later step can see the difference. */
  function Relabel(s: State, lost: set<CallId>): State {
    s.(calls := map c | c in s.calls :: if c in lost then s.calls[c].(phase := Failed) else s.calls[c])
  }

  ghost predicate AllFinished(s: State, lost: set<CallId>) {
    forall c :: c in lost ==> c in s.calls && Finished(s.calls[c])
  }

  lemma RelabelEnabled(s: State, lost: set<CallId>, step: Step)
    requires AllFinished(s, lost) && Enabled(s, step)
    ensures Enabled(Relabel(s, lost), step) && AllFinished(Apply(s, step), lost)
  {
    hide Batch, Slice;
  }

  lemma RelabelCallStep(s: State, lost: set<CallId>, step: Step)
    requires AllFinished(s, lost) && Enabled(s, step) && Enabled(Relabel(s, lost), step) && CallStep(step)
    ensures Apply(Relabel(s, lost), step) == Relabel(Apply(s, step), lost)
  {
    var r, s' := Relabel(s, lost), Apply(s, step);
    assert Apply(r, step).calls == Relabel(s', lost).calls;
  }

  lemma RelabelOtherStep(s: State, lost: set<CallId>, step: Step)
    requires AllFinished(s, lost) && Enabled(s, step) && Enabled(Relabel(s, lost), step) && !CallStep(step)
    ensures Apply(Relabel(s, lost), step) == Relabel(Apply(s, step), lost)
  {
    hide Batch, Slice;
    OtherStep(s, step);
    OtherStep(Relabel(s, lost), step);
  }

  lemma RelabelCommutes(s: State, lost: set<CallId>, step: Step)
    requires AllFinished(s, lost) && Enabled(s, step)
    ensures AllFinished(Apply(s, step), lost)
    ensures Enabled(Relabel(s, lost), step) && Apply(Relabel(s, lost), step) == Relabel(Apply(s, step), lost)
  {
    RelabelEnabled(s, lost, step);
    hide Apply, Enabled, AllFinished;
    if CallStep(step) {
      RelabelCallStep(s, lost, step);
    } else {
      RelabelOtherStep(s, lost, step);
    }
  }

  /** The invariant from creation on: while somebody is in sync, it is the protocol's invariant, except for
      calls that had finished when the in-sync set was last empty. */
  ghost predicate OriginInv(s: State, lost: set<CallId>) {
    EarlyInv(s) && AllPassed(s) && AllFinished(s, lost) && (s.isr != {} ==> Inv(Relabel(s, lost)))
  }

  function FinishedCalls(s: State): set<CallId> {
    set c | c in s.calls && Finished(s.calls[c])
  }

  lemma RelabelJoin(s: State, lost: set<CallId>, n: NodeId)
    requires AllFinished(s, lost) && SentInv(s)
    ensures JoinSound(Relabel(s, lost), n) <==> JoinSound(s, n)
  {
    var r := Relabel(s, lost);
    assert forall c :: AckedBy(r, n, c) <==> AckedBy(s, n, c);
    if n in s.followers {
      assert forall c :: c in s.calls ==> (HoldsOneMore(r, n, c) <==> HoldsOneMore(s, n, c));
    }
  }

  lemma EarlyIgnoresIsr(s: State, isr: set<NodeId>)
    requires EarlyInv(s) && AllPassed(s)
    ensures EarlyInv(s.(isr := isr)) && AllPassed(s.(isr := isr))
  {
    var t := s.(isr := isr);
    forall c | c in t.calls ensures CallBounds(t, c) {
      assert CallBounds(s, c);
    }
    forall c | c in t.calls && t.calls[c].target < t.leader.Next() ensures Passed(t, t.calls[c].target) {
      var d :| Acknowledged(s, d) && s.calls[d].target == s.calls[c].target && LeaderHolds(s, d);
      assert Acknowledged(t, d) && LeaderHolds(t, d);
    }
  }

  lemma FirstMember(s: State, n: NodeId)
    requires EarlyInv(s) && s.isr == {} && JoinSound(s, n)
    ensures Inv(Relabel(s.(isr := {n}), FinishedCalls(s)))
  {
    var r := Relabel(s.(isr := {n}), FinishedCalls(s));
    forall c | c in r.calls ensures CallInv(r, c) {
      assert CallBounds(s, c);
    }
    forall d | AckedBy(r, n, d) ensures HoldsOneMore(r, n, d) {
      assert AckedBy(s, n, d);
    }
  }

  /** The first join: nobody was in sync, the follower agrees with the leader, every unfinished call waits
      for it, and what is in flight about it is about its one extra record. */
  lemma FirstJoin(s: State, n: NodeId)
    requires EarlyInv(s) && AllPassed(s) && s.isr == {} && JoinSound(s, n)
    ensures OriginInv(s.(isr := {n}), FinishedCalls(s))
  {
    hide EarlyInv, AllPassed, Inv, JoinSound;
    EarlyIgnoresIsr(s, {n});
    FirstMember(s, n);
  }

  /** Every join of the run is one that the protocol admits; leaving is free, even of the last follower. */
  ghost predicate SoundJoins(states: seq<State>, steps: seq<Step>)
    requires |states| == |steps| + 1
  {
    forall i :: 0 <= i < |steps| && steps[i].JoinIsr? ==>
      steps[i].node in states[i].isr || JoinSound(states[i], steps[i].node)
  }

  lemma IsrAfter(s: State, step: Step)
    requires Enabled(s, step)
    ensures Apply(s, step).isr == if step.LeaveIsr? then s.isr - {step.node}
                                  else if step.JoinIsr? then s.isr + {step.node} else s.isr
    ensures step.JoinIsr? ==> Apply(s, step) == s.(isr := s.isr + {step.node})
  {
    hide Batch, Slice;
  }

  lemma OriginKeeps(s: State, lost: set<CallId>, step: Step) returns (lost': set<CallId>)
    requires OriginInv(s, lost) && Enabled(s, step)
    requires step.JoinIsr? ==> step.node in s.isr || JoinSound(s, step.node)
    ensures OriginInv(Apply(s, step), lost')
  {
    EarlyKeeps(s, step);
    PassedKeep(s, step);
    RelabelCommutes(s, lost, step);
    IsrAfter(s, step);
    assert SentInv(s);
    hide Inv, Apply, Enabled, EarlyInv, AllPassed, JoinSound, AllFinished;
    var s' := Apply(s, step);
    lost' := lost;
    if s.isr != {} && s'.isr != {} {
      if step.JoinIsr? {
        RelabelJoin(s, lost, step.node);
      }
      StepKeeps(Relabel(s, lost), step);
    } else if s.isr == {} && step.JoinIsr? {
      assert s' == s.(isr := {step.node});
      FirstJoin(s, step.node);
      lost' := FinishedCalls(s);
    } else {
      assert s'.isr == {};
    }
  }

  /** From creation on, through any membership changes with sound joins, the invariant holds with some
      calls given up. */
  lemma {:induction false} OriginHolds(states: seq<State>, steps: seq<Step>, i: nat) returns (lost: set<CallId>)
    requires Run(states, steps) && SoundJoins(states, steps) && i < |states|
    ensures OriginInv(states[i], lost)
  {
    hide OriginInv, Enabled, Apply, JoinSound;
    if i == 0 {
      lost := {};
      OriginStarts(states[0]);
    } else {
      lost := OriginHolds(states, steps, i - 1);
      assert RunsStep(states, steps, i - 1);
      lost := OriginKeeps(states[i - 1], lost, steps[i - 1]);
    }
  }

  lemma OriginStarts(s: State)
    requires Init(s)
    ensures OriginInv(s, {})
  {
    EarlyStarts(s);
    if s.isr != {} {
      InitHolds(s);
      assert Relabel(s, {}) == s;
    }
  }

  lemma RelabelAgrees(s: State, lost: set<CallId>)
    requires OriginInv(s, lost)
    ensures LogAgreement(s)
  {
    forall n | n in s.isr ensures Agrees(s, n) {
      assert MemberInv(Relabel(s, lost), n) && Agrees(Relabel(s, lost), n);
    }
  }

  /** Log agreement from creation on: in every state of every run whose joins are sound, starting with
      any in-sync set or none and with members leaving freely, the leader's log is a prefix of the log of
      each in-sync follower, which is at most one record longer. */
  lemma AgreementFromCreation(states: seq<State>, steps: seq<Step>, i: nat)
    requires Run(states, steps) && SoundJoins(states, steps) && i < |states|
    ensures LogAgreement(states[i])
  {
    var lost := OriginHolds(states, steps, i);
    RelabelAgrees(states[i], lost);
  }

  lemma {:induction false} LeaderGrowsAlong(states: seq<State>, steps: seq<Step>, i: nat, j: nat)
    requires Run(states, steps) && i <= j < |states|
    ensures states[j].leader.base == states[i].leader.base && states[i].leader.recs <= states[j].leader.recs
    decreases j
  {
    if i < j {
      LeaderGrowsAlong(states, steps, i, j - 1);
      assert RunsStep(states, steps, j - 1);
      LeaderGrows(states[j - 1], steps[j - 1]);
    }
  }

  lemma AgreedIsDurable(s: State, c: CallId)
    requires LogAgreement(s) && c in s.calls
    ensures Durable(s, c) <==> LeaderHolds(s, c)
  {
    if LeaderHolds(s, c) {
      forall n | n in s.isr
        ensures n in s.followers && HoldsAt(s.followers[n].log, s.calls[c].target, EntryOf(s, c))
      {
        assert Agrees(s, n);
        assert s.followers[n].log.recs[s.calls[c].target - s.leader.base] == EntryOf(s, c);
      }
    }
  }

  /** An acknowledgement from creation on: it is kept, on the leader and on whoever is in sync, in every
      later state, or in none of them; and it is kept exactly if the leader holds the record, which the
      leader of an empty in-sync set may have skipped. */
  lemma AcknowledgementKeptIff(states: seq<State>, steps: seq<Step>, i: nat, j: nat, c: CallId)
    requires Run(states, steps) && SoundJoins(states, steps) && i <= j < |states| && Acknowledged(states[i], c)
    ensures Acknowledged(states[j], c)
    ensures Durable(states[j], c) <==> LeaderHolds(states[i], c)
  {
    AcknowledgedForever(states, steps, i, j, c);
    AgreementFromCreation(states, steps, j);
    AgreedIsDurable(states[j], c);
    LeaderGrowsAlong(states, steps, i, j);
    var lost := OriginHolds(states, steps, i);
    assert CallBounds(states[i], c);
  }

  /** A call that commits while somebody is in sync has its record written. */
  lemma CommitIsHeld(states: seq<State>, steps: seq<Step>, i: nat, c: CallId, fault: CommitFault)
    requires Run(states, steps) && SoundJoins(states, steps) && i < |steps|
    requires steps[i] == Commit(c, fault) && states[i].isr != {} && Acknowledged(states[i + 1], c)
    ensures LeaderHolds(states[i + 1], c)
  {
    assert RunsStep(states, steps, i);
    var lost := OriginHolds(states, steps, i);
    CommittingIsAlone(Relabel(states[i], lost), c);
    assert CallBounds(states[i], c);
  }

  /** From creation on, no message is lost that was acknowledged while some follower was in sync: its record
      is for ever after where the call said, on the leader and on every follower that is in sync. */
  lemma NoAcknowledgedMessageLostFromCreation(states: seq<State>, steps: seq<Step>, i: nat, j: nat, c: CallId,
                                              fault: CommitFault)
    requires Run(states, steps) && SoundJoins(states, steps) && i < j < |states|
    requires steps[i] == Commit(c, fault) && states[i].isr != {} && Acknowledged(states[i + 1], c)
    ensures Acknowledged(states[j], c) && Durable(states[j], c)
    ensures forall d :: d in states[j].calls && d != c && LeaderHolds(states[j], d) ==>
              states[j].calls[d].target != states[j].calls[c].target
  {
    CommitIsHeld(states, steps, i, c, fault);
    AcknowledgementKeptIff(states, steps, i + 1, j, c);
  }
}
