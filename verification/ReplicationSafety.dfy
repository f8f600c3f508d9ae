/** What the replication protocol guarantees over whole runs. */
module ReplicationSafety {
  import opened Log
  import opened Replication
  import opened ReplicationInvariant

  /** Every membership change of the run is one that the protocol admits. */
  ghost predicate AdmissibleRun(states: seq<State>, steps: seq<Step>)
    requires |states| == |steps| + 1
  {
    forall i :: 0 <= i < |steps| ==> Admissible(states[i], steps[i])
  }

  predicate FixedIsr(steps: seq<Step>) {
    forall i :: 0 <= i < |steps| ==> !steps[i].LeaveIsr? && !steps[i].JoinIsr?
  }

  lemma {:induction false} InvariantHolds(states: seq<State>, steps: seq<Step>, i: nat)
    requires Run(states, steps) && AdmissibleRun(states, steps) && states[0].isr != {} && i < |states|
    ensures Inv(states[i])
  {
    if i == 0 {
      InitHolds(states[0]);
    } else {
      InvariantHolds(states, steps, i - 1);
      assert RunsStep(states, steps, i - 1) && Admissible(states[i - 1], steps[i - 1]);
      StepKeeps(states[i - 1], steps[i - 1]);
    }
  }

  /** Log agreement: in every state of every run, the leader's log is a prefix of the log of each
      in-sync follower, which is at most one record longer. */
  lemma AgreementAlways(states: seq<State>, steps: seq<Step>, i: nat)
    requires Run(states, steps) && AdmissibleRun(states, steps) && states[0].isr != {} && i < |states|
    ensures LogAgreement(states[i])
  {
    InvariantHolds(states, steps, i);
    forall n | n in states[i].isr ensures Agrees(states[i], n) {
      assert MemberInv(states[i], n);
    }
  }

  /** The record of call `c` lies at its offset on the leader and on every in-sync follower. */
  predicate Durable(s: State, c: CallId) {
    && c in s.calls
    && var t := s.calls[c].target;
    && HoldsAt(s.leader, t, EntryOf(s, c))
    && forall n | n in s.isr :: n in s.followers && HoldsAt(s.followers[n].log, t, EntryOf(s, c))
  }

  predicate HoldsAt(l: Log<Entry>, offset: nat, e: Entry) {
    l.base <= offset < l.Next() && l.recs[offset - l.base] == e && e.msg.offset == offset
  }

  predicate Acknowledged(s: State, c: CallId) {
    c in s.calls && s.calls[c].phase.Succeeded?
  }

  lemma AcknowledgedIsDurable(s: State, c: CallId)
    requires Inv(s) && Acknowledged(s, c)
    ensures Durable(s, c)
  {
    assert CallInv(s, c);
    forall n | n in s.isr
      ensures n in s.followers && HoldsAt(s.followers[n].log, s.calls[c].target, EntryOf(s, c))
    {
      assert MemberInv(s, n);
      assert s.followers[n].log.recs[s.calls[c].target - s.leader.base]
          == s.leader.recs[s.calls[c].target - s.leader.base];
    }
  }

  lemma AcknowledgedStays(s: State, step: Step, c: CallId)
    requires Enabled(s, step) && Acknowledged(s, c)
    ensures Acknowledged(Apply(s, step), c) && Apply(s, step).calls[c] == s.calls[c]
  {
  }

  lemma {:induction false} AcknowledgedForever(states: seq<State>, steps: seq<Step>, i: nat, j: nat, c: CallId)
    requires Run(states, steps) && i <= j < |states| && Acknowledged(states[i], c)
    ensures Acknowledged(states[j], c) && states[j].calls[c] == states[i].calls[c]
    decreases j
  {
    if i < j {
      AcknowledgedForever(states, steps, i, j - 1, c);
      assert RunsStep(states, steps, j - 1);
      AcknowledgedStays(states[j - 1], steps[j - 1], c);
    }
  }

  /** No acknowledged message is lost: from the state in which a call has succeeded, its record is,
      for ever after, exactly where the call said, on the leader and on every in-sync follower; and
      no two calls are told the same offset. */
  lemma NoAcknowledgedMessageLost(states: seq<State>, steps: seq<Step>, i: nat, j: nat, c: CallId)
    requires Run(states, steps) && AdmissibleRun(states, steps) && states[0].isr != {}
    requires i <= j < |states| && Acknowledged(states[i], c)
    ensures Durable(states[j], c)
    ensures EntryOf(states[j], c) == EntryOf(states[i], c) && states[j].calls[c].target == states[i].calls[c].target
    ensures forall d :: Acknowledged(states[j], d) && d != c ==> states[j].calls[d].target != states[j].calls[c].target
  {
    AcknowledgedForever(states, steps, i, j, c);
    InvariantHolds(states, steps, j);
    AcknowledgedIsDurable(states[j], c);
    forall d | Acknowledged(states[j], d) && d != c
      ensures states[j].calls[d].target != states[j].calls[c].target
    {
      AcknowledgedIsDurable(states[j], d);
    }
  }

  /** The leader's own commit always writes: the branch that skips an offset already written is
      never taken, and neither is the one that refuses a gap. */
  lemma CommitAlwaysWrites(states: seq<State>, steps: seq<Step>, i: nat, c: CallId)
    requires Run(states, steps) && AdmissibleRun(states, steps) && states[0].isr != {} && i < |states|
    requires c in states[i].calls && states[i].calls[c].phase.Committing?
    ensures EntryOutcomeOf(states[i].leader, states[i].calls[c].target) == Applied
  {
    InvariantHolds(states, steps, i);
    CommittingIsAlone(states[i], c);
  }

  /** Rollback never destroys committed data: while an invalidation is on its way to an in-sync
      follower, that follower's log is the leader's log and the failed record, and delivering it
      takes back that record and no other. */
  lemma RollbackIsExact(states: seq<State>, steps: seq<Step>, i: nat, e: Envelope, lastActive: bool)
    requires Run(states, steps) && AdmissibleRun(states, steps) && states[0].isr != {} && i < |states|
    requires e in states[i].invalidations && e.node in states[i].isr
    ensures e.call in states[i].calls && e.node in states[i].followers
    ensures var s, t := states[i], states[i].calls[e.call].target;
            && t == s.leader.Next()
            && s.followers[e.node].log == Log(s.leader.base, s.leader.recs + [EntryOf(s, e.call)])
            && InvalidateOutcomeOf(s.followers[e.node].log, t) == RolledBack
            && s.followers[e.node].lastActive
            && Apply(s, DeliverInvalidation(e, lastActive)).followers[e.node].log == s.leader
  {
    InvariantHolds(states, steps, i);
    assert MemberInv(states[i], e.node);
    RolledBackLog(states[i], e);
  }

  // --- With no in-sync follower ---

  /** What a run must show for its acknowledgements to be worth something. */
  ghost predicate KeepsItsPromises(states: seq<State>) {
    && (forall i, j, c {:trigger Acknowledged(states[i], c), Durable(states[j], c)} ::
          0 <= i <= j < |states| && Acknowledged(states[i], c) ==> Durable(states[j], c))
    && (forall i, c, d {:trigger Acknowledged(states[i], c), Acknowledged(states[i], d)} ::
          0 <= i < |states| && Acknowledged(states[i], c) && Acknowledged(states[i], d) && c != d
          ==> states[i].calls[c].target != states[i].calls[d].target)
  }

  function LoneCall(phase: Phase, b: Byte): Call {
    Call(phase, {}, 0, Message(0, 0, if phase.Started? then [] else [b]), {}, {})
  }

  function LoneState(recs: seq<Entry>, calls: map<CallId, Call>): State {
    State(Log(0, recs), map[], {}, calls, {}, {}, {})
  }

  function LoneStep(i: nat): Step {
    [Begin(1), Begin(2), Push(1, 0, [1], {}), Push(2, 0, [2], {}), Decide(1), Decide(2),
     Commit(1, NoCommitFault), Commit(2, NoCommitFault)][if i < 8 then i else 7]
  }

  /** The state after the first i steps. */
  function LoneRun(i: nat): State {
    var a, b := Entry(1, Message(0, 0, [1])), LoneCall;
    if i == 0 then LoneState([], map[])
    else if i == 1 then LoneState([], map[1 := b(Started, 1)])
    else if i == 2 then LoneState([], map[1 := b(Started, 1), 2 := b(Started, 2)])
    else if i == 3 then LoneState([], map[1 := b(Pushing, 1), 2 := b(Started, 2)])
    else if i == 4 then LoneState([], map[1 := b(Pushing, 1), 2 := b(Pushing, 2)])
    else if i == 5 then LoneState([], map[1 := b(Committing, 1), 2 := b(Pushing, 2)])
    else if i == 6 then LoneState([], map[1 := b(Committing, 1), 2 := b(Committing, 2)])
    else if i == 7 then LoneState([a], map[1 := b(Succeeded, 1), 2 := b(Committing, 2)])
    else LoneState([a], map[1 := b(Succeeded, 1), 2 := b(Succeeded, 2)])
  }

  lemma LoneRunSteps(i: nat)
    requires i < 8
    ensures Enabled(LoneRun(i), LoneStep(i)) && Apply(LoneRun(i), LoneStep(i)) == LoneRun(i + 1)
  {
    assert EnvelopesTo(1, {}) == EnvelopesTo(2, {}) == {};
  }

  lemma LoneRunEnds()
    ensures Init(LoneRun(0)) && LoneRun(0).isr == {}
    ensures Acknowledged(LoneRun(8), 2) && !Durable(LoneRun(8), 2)
  {
  }

  /** Two concurrent calls on a leader without in-sync followers both succeed at offset 0; the
      second is skipped as already written, and its message is nowhere. */
  lemma LoneLeaderLosesWrite() returns (states: seq<State>, steps: seq<Step>)
    ensures Run(states, steps) && FixedIsr(steps) && states[0].isr == {}
    ensures !KeepsItsPromises(states)
  {
    hide Apply, Enabled, LoneRun, Durable, Acknowledged;
    states, steps := seq(9, i requires 0 <= i => LoneRun(i)), seq(8, i requires 0 <= i => LoneStep(i));
    forall i | 0 <= i < |steps| ensures RunsStep(states, steps, i) {
      LoneRunSteps(i);
    }
    LoneRunEnds();
    assert Acknowledged(states[8], 2) && !Durable(states[8], 2);
  }

  /** For every fixed in-sync set: all its runs keep their promises if and only if it has a follower. */
  lemma PromisesIffFollower(q: set<NodeId>)
    ensures (forall states: seq<State>, steps: seq<Step> :: Run(states, steps) && FixedIsr(steps) && states[0].isr == q
                                     ==> KeepsItsPromises(states))
            <==> q != {}
  {
    if q == {} {
      var states, steps := LoneLeaderLosesWrite();
    } else {
      forall states: seq<State>, steps: seq<Step> | Run(states, steps) && FixedIsr(steps) && states[0].isr == q
        ensures KeepsItsPromises(states)
      {
        assert AdmissibleRun(states, steps);
        forall i, j, c | 0 <= i <= j < |states| && Acknowledged(states[i], c) ensures Durable(states[j], c) {
          NoAcknowledgedMessageLost(states, steps, i, j, c);
        }
        forall i, c, d | 0 <= i < |states| && Acknowledged(states[i], c) && Acknowledged(states[i], d) && c != d
          ensures states[i].calls[c].target != states[i].calls[d].target
        {
          NoAcknowledgedMessageLost(states, steps, i, i, c);
        }
      }
    }
  }

  // --- Catch-up ---

  ghost predicate FetchesInv(s: State) {
    forall n :: n in s.followers ==> FetchInv(s.leader, s.followers[n])
  }

  /** The follower's log is a prefix of the leader's. */
  predicate Behind(s: State, n: NodeId) {
    n in s.followers && s.followers[n].log.base == s.leader.base && s.followers[n].log.recs <= s.leader.recs
  }

  lemma LeaderGrows(s: State, step: Step)
    requires Enabled(s, step)
    ensures Apply(s, step).leader.base == s.leader.base && s.leader.recs <= Apply(s, step).leader.recs
    ensures Apply(s, step).followers.Keys == s.followers.Keys
  {
  }

  lemma FetchSurvivesGrowth(leader: Log<Entry>, leader': Log<Entry>, f: Follower)
    requires FetchInv(leader, f) && leader'.base == leader.base && leader.recs <= leader'.recs
    ensures FetchInv(leader', f)
  {
  }

  lemma FetchesStay(s: State, step: Step)
    requires FetchesInv(s) && Enabled(s, step)
    ensures FetchesInv(Apply(s, step))
  {
    hide Slice;
    var s' := Apply(s, step);
    LeaderGrows(s, step);
    forall n | n in s'.followers ensures FetchInv(s'.leader, s'.followers[n]) {
      assert FetchInv(s.leader, s.followers[n]);
      FetchSurvivesGrowth(s.leader, s'.leader, s.followers[n]);
      match step
      case StartFetch(m) => BatchIsSlice(s.leader, s.followers[n]);
      case ApplyFetched(m) => if m == n { FirstApplied(s.leader, s.followers[n]); }
      case _ =>
    }
  }

  lemma BatchIsSlice(leader: Log<Entry>, f: Follower)
    requires f.log.base == leader.base
    ensures FetchInv(leader, f.(fetch := Fetched(Batch(leader, f.log.Next(), BATCH_SIZE), f.log.Next(), leader.Next())))
  {
  }

  lemma FirstApplied(leader: Log<Entry>, f: Follower)
    requires FetchInv(leader, f) && f.fetch.Fetched? && f.fetch.entries != []
    ensures FetchInv(leader, ApplyFirst(f))
  {
    var Fetched(entries, from, hw) := f.fetch;
    assert entries[1..] == Slice(leader, from + 1, from + |entries|);
  }

  /** One step from a replicating state leaves a log that is behind the leader behind the leader. */
  lemma BehindStays(s: State, step: Step, n: NodeId)
    requires FetchesInv(s) && Enabled(s, step) && Behind(s, n) && !s.followers[n].inSync
    ensures Behind(Apply(s, step), n)
  {
    LeaderGrows(s, step);
    if step.ApplyFetched? && step.node == n {
      BehindApplies(s, n);
    } else {
      hide FetchInv, Batch, Slice;
    }
  }

  lemma BehindApplies(s: State, n: NodeId)
    requires FetchesInv(s) && Enabled(s, ApplyFetched(n)) && Behind(s, n)
    ensures Behind(Apply(s, ApplyFetched(n)), n)
  {
    assert FetchInv(s.leader, s.followers[n]);
  }

  lemma {:induction false} FetchesAlways(states: seq<State>, steps: seq<Step>, i: nat)
    requires Run(states, steps) && i < |states|
    ensures FetchesInv(states[i])
  {
    if i > 0 {
      FetchesAlways(states, steps, i - 1);
      assert RunsStep(states, steps, i - 1);
      FetchesStay(states[i - 1], steps[i - 1]);
    }
  }

  /** The follower holds, and holds nothing but, leader records up to at least its observed watermark. */
  predicate HoldsAllBelowWatermark(s: State, n: NodeId)
    requires Behind(s, n) && s.followers[n].fetch.Fetched?
  {
    var f := s.followers[n];
    f.fetch.highWatermark <= f.log.Next() <= s.leader.Next() && f.log.recs == s.leader.recs[..|f.log.recs|]
  }

  lemma FlipHoldsAll(s: State, step: Step, n: NodeId)
    requires Behind(s, n) && FlipsToInSync(s, step, n)
    ensures s.followers[n].fetch.Fetched? && HoldsAllBelowWatermark(s, n)
  {
  }

  /** Catch-up is safe in every run, whatever the in-sync set: a replica whose log is a prefix of the
      leader's stays one for as long as it replicates, through leader commits, rejected pushes and
      stray invalidations; and when the high watermark test flips it to in-sync, it holds every
      record that the leader had when it reported that watermark. */
  lemma {:induction false} CatchUpIsSafe(states: seq<State>, steps: seq<Step>, n: NodeId, i: nat, j: nat)
    requires Run(states, steps) && i <= j < |states|
    requires Behind(states[i], n)
    requires forall k :: i <= k < j ==> n in states[k].followers && !states[k].followers[n].inSync
    ensures Behind(states[j], n)
    ensures j < |steps| && FlipsToInSync(states[j], steps[j], n) ==>
              states[j].followers[n].fetch.Fetched? && HoldsAllBelowWatermark(states[j], n)
    decreases j
  {
    hide Apply, Enabled, FetchesInv, FlipsToInSync;
    if i < j {
      CatchUpIsSafe(states, steps, n, i, j - 1);
      FetchesAlways(states, steps, j - 1);
      assert RunsStep(states, steps, j - 1);
      BehindStays(states[j - 1], steps[j - 1], n);
    }
    if j < |steps| && FlipsToInSync(states[j], steps[j], n) {
      FlipHoldsAll(states[j], steps[j], n);
    }
  }

  /** This step ends a catch-up round of `n` with the high watermark reached. */
  predicate FlipsToInSync(s: State, step: Step, n: NodeId) {
    && step == FinishRound(n) && Enabled(s, step) && !s.followers[n].inSync
    && n in Apply(s, step).followers && Apply(s, step).followers[n].inSync
  }

  function LagStep(i: nat): Step {
    var e1, e2 := Envelope(1, 1), Envelope(1, 2);
    [StartFetch(2), Begin(1), Push(1, 0, [], {1, 2}), DeliverPush(e2), DeliverPush(e1), DeliverAck(e1),
     Decide(1), Commit(1, NoCommitFault), FinishRound(2), JoinIsr(2)][if i < 10 then i else 9]
  }

  function LagFollowers(log1: seq<Entry>, inSync2: bool, fetching: bool): map<NodeId, Follower> {
    map[1 := Follower(Log(0, log1), true, NoFetch, true),
        2 := Follower(Log(0, []), inSync2, if fetching then Fetched([], 0, 0) else NoFetch, true)]
  }

  function LagCall(phase: Phase, acked: set<NodeId>): Call {
    Call(phase, {1}, 0, Message(0, 0, []), if phase.Started? then {} else {1, 2}, acked)
  }

  /** The state after the first i steps. */
  function LagRun(i: nat): State {
    var recs, e1, e2 := [Entry(1, Message(0, 0, []))], Envelope(1, 1), Envelope(1, 2);
    var leader := Log(0, if i < 8 then [] else recs);
    var followers := LagFollowers(if i < 5 then [] else recs, i >= 9, 1 <= i < 9);
    var calls: map<CallId, Call> :=
      if i < 2 then map[] else if i < 3 then map[1 := LagCall(Started, {})]
      else if i < 6 then map[1 := LagCall(Pushing, {})] else if i < 7 then map[1 := LagCall(Pushing, {1})]
      else if i < 8 then map[1 := LagCall(Committing, {1})] else map[1 := LagCall(Succeeded, {1})];
    State(leader, followers, if i < 10 then {1} else {1, 2}, calls,
          if i == 3 then {e1, e2} else if i == 4 then {e1} else {}, if i == 5 then {e1} else {}, {})
  }

  lemma SameState(s: State, s': State)
    requires s.followers.Keys == s'.followers.Keys == {1, 2}
    requires s.followers[1] == s'.followers[1] && s.followers[2] == s'.followers[2]
    requires s.leader == s'.leader && s.isr == s'.isr && s.calls == s'.calls
    requires s.pushes == s'.pushes && s.acks == s'.acks && s.invalidations == s'.invalidations
    ensures s == s'
  {
    assert s.followers == s'.followers;
  }

  lemma LagRunStarts(i: nat)
    requires i < 5
    ensures Enabled(LagRun(i), LagStep(i)) && Apply(LagRun(i), LagStep(i)) == LagRun(i + 1)
  {
    assert EnvelopesTo(1, {1, 2}) == {Envelope(1, 1), Envelope(1, 2)};
    SameState(Apply(LagRun(i), LagStep(i)), LagRun(i + 1));
  }

  lemma LagRunEnds(i: nat)
    requires 5 <= i < 10
    ensures Enabled(LagRun(i), LagStep(i)) && Apply(LagRun(i), LagStep(i)) == LagRun(i + 1)
  {
    var none: set<NodeId> := {};
    assert none + {1} == {1};
    SameState(Apply(LagRun(i), LagStep(i)), LagRun(i + 1));
  }

  lemma LagFlips()
    ensures FlipsToInSync(LagRun(8), LagStep(8), 2)
  {
    LagRunEnds(8);
  }

  /** Counting a follower as in sync as soon as its catch-up has finished is not enough: the leader
      can commit a record that the follower has rejected while it compared itself with an older high
      watermark. The acknowledged record is then missing on an in-sync follower. */
  lemma FinishedCatchUpMayLag() returns (states: seq<State>, steps: seq<Step>)
    ensures Run(states, steps) && states[0].isr != {}
    ensures |steps| == 10 && FixedIsr(steps[..9]) && steps[9] == JoinIsr(2)
    ensures LogAgreement(states[9]) && FlipsToInSync(states[8], steps[8], 2)
    ensures !JoinSound(states[9], 2)
    ensures !LogAgreement(states[10])
    ensures Acknowledged(states[10], 1) && !Durable(states[10], 1)
  {
    hide Apply, Enabled;
    states, steps := seq(11, i requires 0 <= i => LagRun(i)), seq(10, i requires 0 <= i => LagStep(i));
    forall i | 0 <= i < |steps| ensures RunsStep(states, steps, i) {
      if i < 5 {
        LagRunStarts(i);
      } else {
        LagRunEnds(i);
      }
    }
    LagFlips();
    assert !Agrees(states[9], 2) && !Agrees(states[10], 2);
  }

  // --- The log as the partition stores it ---

  function Messages(l: Log<Entry>): Log<Message> {
    Log(l.base, seq(|l.recs|, i requires 0 <= i < |l.recs| => l.recs[i].msg))
  }

  /** Each log operation of the protocol is the plain log operation on the messages; Simulation proves
      the partition's methods against these. */
  lemma PartitionRefinesProtocol(l: Log<Entry>, inSync: bool, target: nat, e: Entry)
    ensures PushOutcomeOf(inSync, Messages(l), target) == PushOutcomeOf(inSync, l, target)
    ensures AfterPush(inSync, Messages(l), target, e.msg) == Messages(AfterPush(inSync, l, target, e))
    ensures EntryOutcomeOf(Messages(l), target) == EntryOutcomeOf(l, target)
    ensures AfterEntry(Messages(l), target, e.msg) == Messages(AfterEntry(l, target, e))
    ensures InvalidateOutcomeOf(Messages(l), target) == InvalidateOutcomeOf(l, target)
    ensures AfterInvalidate(Messages(l), target) == Messages(AfterInvalidate(l, target))
  {
    var longer := Log(l.base, l.recs + [e]);
    assert Messages(longer).recs == Messages(l).recs + [e.msg];
    if l.recs != [] {
      var shorter := Log(l.base, l.recs[..|l.recs| - 1]);
      assert Messages(shorter).recs == Messages(l).recs[..|l.recs| - 1];
    }
  }
}
