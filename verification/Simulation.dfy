/** The join of the two layers: whatever a call does to the partition object of a node, under every
    fault, is what some steps of the protocol do to that node's log; and what a process that dies
    leaves on disk is what its log is after those steps and a crash. */
module Simulation {
  import opened Log
  import opened Codec
  import opened FileNames
  import opened SegmentFile
  import opened SegmentChain
  import opened Partition
  import opened Produce
  import opened Replication
  import opened ReplicationInvariant
  import opened ReplicationSafety
  import opened ReplicationOrigin

  /** `steps` lead from one state of the protocol to another. */
  ghost predicate Leads(s: State, steps: seq<Step>, s': State)
    decreases |steps|
  {
    if steps == [] then s' == s
    else Enabled(s, steps[0]) && Leads(Apply(s, steps[0]), steps[1..], s')
  }

  lemma OneStep(s: State, step: Step)
    requires Enabled(s, step)
    ensures Leads(s, [step], Apply(s, step))
  {
    assert Leads(Apply(s, step), [step][1..], Apply(s, step));
  }

  lemma TwoSteps(s: State, first: Step, second: Step)
    requires Enabled(s, first) && Enabled(Apply(s, first), second)
    ensures Leads(s, [first, second], Apply(Apply(s, first), second))
  {
    OneStep(Apply(s, first), second);
    assert [first, second][1..] == [second];
  }

  /** The invariant, with the calls `lost` given up: they had finished before the follower set was sound. */
  ghost predicate InvUpTo(s: State, lost: set<CallId>) {
    AllFinished(s, lost) && Inv(Relabel(s, lost))
  }

  /** Every state that a run reaches from the creation of the partition, with somebody in sync, is one. */
  lemma InvUpToHolds(s: State, lost: set<CallId>)
    ensures InvUpTo(s, {}) <==> Inv(s)
    ensures OriginInv(s, lost) && s.isr != {} ==> InvUpTo(s, lost)
  {
    hide Inv, EarlyInv, AllPassed;
    assert Relabel(s, {}) == s;
  }

  /** The simulating steps change no membership, so they keep the invariant. */
  lemma {:induction false} LeadsKeeps(s: State, steps: seq<Step>, s': State, lost: set<CallId>)
    requires InvUpTo(s, lost) && Leads(s, steps, s') && FixedIsr(steps)
    ensures InvUpTo(s', lost)
    decreases |steps|
  {
    hide Inv, Apply, Enabled, Relabel, AllFinished;
    if steps != [] {
      RelabelCommutes(s, lost, steps[0]);
      StepKeeps(Relabel(s, lost), steps[0]);
      LeadsKeeps(Apply(s, steps[0]), steps[1..], s', lost);
    }
  }

  /** The partition object is the follower's log, its sync state and where its last record lies. */
  ghost predicate Hosts(p: PartitionProcessor, s: State, n: NodeId)
    reads p, p.Segments()
  {
    && n in s.followers && p.Valid() && p.View() == Messages(s.followers[n].log)
    && (p.syncState == StateInSync <==> s.followers[n].inSync)
    && p.LastIsActive() == s.followers[n].lastActive
  }

  /** A process that dies now comes back with the follower's log. */
  ghost predicate LeavesOnDisk(p: PartitionProcessor, s: State, n: NodeId)
    reads p, p.closedSegments, p.Segments()
  {
    n in s.followers && Recovers(p.Disk(), Image(Messages(s.followers[n].log), false, s.followers[n].lastActive))
  }

  ghost predicate HostsLeader(p: PartitionProcessor, s: State)
    reads p, p.Segments()
  {
    p.Valid() && p.View() == Messages(s.leader)
  }

  lemma HostedIsOnDisk(p: PartitionProcessor, s: State, n: NodeId)
    requires Hosts(p, s, n)
    ensures LeavesOnDisk(p, s, n)
  {
    hide Recovers, PartitionProcessor.Disk, PartitionProcessor.Valid, PartitionProcessor.Sized;
    DiskOfValid(p);
    RecoversLess(p.Disk(), p.Snapshot(), false);
  }

  // --- Pushes ---

  /** An attempt to append to a log, done or not, as a restart sees it. */
  ghost predicate Attempted(f: Follower, f': Follower, rec: Message, rotated: bool, onDisk: bool) {
    && f'.inSync == f.inSync
    && Image(Messages(f'.log), false, f'.lastActive)
       == AfterAttempt(Image(Messages(f.log), false, f.lastActive), rec, rotated, onDisk)
  }

  /** The steps that a push stands for: refused or taken; or failed, and then lost, lost after a new
      segment file was opened, or taken all the same with its ack lost. */
  lemma PushSteps(s: State, e: Envelope, taken: bool, rotated: bool, onDisk: bool) returns (steps: seq<Step>, s': State)
    requires Enabled(s, DeliverPush(e)) && (taken ==> Accepts(s, e) && onDisk)
    ensures Leads(s, steps, s') && FixedIsr(steps) && s'.followers.Keys == s.followers.Keys
    ensures steps == if taken || !Accepts(s, e) then [DeliverPush(e)]
                     else if onDisk then [DeliverPush(e), LoseAck(e)]
                     else if rotated then [FailPush(e)] else [LosePush(e)]
    ensures Attempted(s.followers[e.node], s'.followers[e.node], s.calls[e.call].msg, Accepts(s, e) && rotated,
                      Accepts(s, e) && onDisk)
    ensures taken ==> e in s'.acks
    ensures !taken ==> e !in s'.acks || e in s.acks
  {
    var f, k := s.followers[e.node], s.calls[e.call];
    PartitionRefinesProtocol(f.log, f.inSync, k.target, Entry(e.call, k.msg));
    if taken || !Accepts(s, e) {
      steps, s' := [DeliverPush(e)], Apply(s, DeliverPush(e));
      OneStep(s, DeliverPush(e));
    } else if onDisk {
      steps, s' := [DeliverPush(e), LoseAck(e)], Apply(Apply(s, DeliverPush(e)), LoseAck(e));
      TwoSteps(s, DeliverPush(e), LoseAck(e));
    } else if rotated {
      steps, s' := [FailPush(e)], Apply(s, FailPush(e));
      OneStep(s, FailPush(e));
    } else {
      steps, s' := [LosePush(e)], Apply(s, LosePush(e));
      OneStep(s, LosePush(e));
    }
  }

  /** TryApplyPush: an accepted record is a delivered push, and one that failed is a push that was lost
      or, if its bytes are on disk all the same, one whose ack was lost. */
  method DeliverPushTo(p: PartitionProcessor, ghost s: State, ghost e: Envelope, target: nat, timestamp: int,
                       payload: seq<Byte>, faults: AppendFaults)
    returns (outcome: PushOutcome, ghost steps: seq<Step>, ghost s': State)
    requires Enabled(s, DeliverPush(e)) && Hosts(p, s, e.node) && target == s.calls[e.call].target
    requires p.nextOffset <= LAST_OFFSET && IsInt64(timestamp)
    requires s.calls[e.call].msg == Stored(target, timestamp, payload)
    modifies p, p.activeSegment
    ensures Leads(s, steps, s') && FixedIsr(steps)
    ensures steps == [DeliverPush(e)] || steps == [LosePush(e)] || steps == [FailPush(e)]
            || steps == [DeliverPush(e), LoseAck(e)]
    ensures outcome == PushAccepted ==> steps == [DeliverPush(e)] && e in s'.acks && p.Valid()
    ensures outcome != PushAccepted && e !in s.acks ==> e !in s'.acks
    ensures p.Valid() ==> Hosts(p, s', e.node)
    ensures LeavesOnDisk(p, s', e.node)
  {
    hide PartitionProcessor.Valid, PartitionProcessor.Sized, PartitionProcessor.Disk, PartitionProcessor.Rotated,
         PartitionProcessor.LastIsActive, Recovers, Stored, AppendSucceeds, FailsCleanly, OnDisk, Opens, Leads, Apply;
    DiskOfValid(p);
    ghost var f, rec := s.followers[e.node], s.calls[e.call].msg;
    ghost var before, size := p.Snapshot(), p.activeSegment.CurrentSize;
    ghost var rotated, onDisk := Opens(size, faults.rotationFails), OnDisk(size, target, timestamp, payload, faults);
    AttemptCases(size, target, timestamp, payload, faults);
    NextOfView(p);
    PartitionRefinesProtocol(f.log, f.inSync, target, Entry(e.call, rec));
    var matchOffset;
    outcome, matchOffset := p.TryApplyPush(target, timestamp, payload, faults);
    steps, s' := PushSteps(s, e, outcome == PushAccepted, rotated, onDisk);
    RecoversLess(p.Disk(), if Accepts(s, e) then AfterAttempt(before, rec, rotated, onDisk) else before, false);
    if p.Valid() {
      DiskOfValid(p);
    }
  }

  /** A successful append is on disk, and a clean failure is not. */
  lemma AttemptCases(size: nat, offset: nat, timestamp: int, payload: seq<Byte>, faults: AppendFaults)
    requires IsInt64(timestamp)
    ensures AppendSucceeds(size, offset, timestamp, payload, faults) ==> OnDisk(size, offset, timestamp, payload, faults)
    ensures FailsCleanly(size, offset, timestamp, payload, faults) ==> !OnDisk(size, offset, timestamp, payload, faults)
  {
    hide BuildBuffer;
  }

  // --- Rollbacks ---

  /** What a restart sees of a follower. */
  function ImageOf(f: Follower): Image {
    Image(Messages(f.log), false, f.lastActive)
  }

  /** What it sees after a rollback that reached the record, or did not. */
  function TakenBack(f: Follower, target: nat, reached: bool, left: int): Image {
    if reached then AfterCut(ImageOf(f), target, left) else ImageOf(f)
  }

  lemma CutKeepsShape(before: Image, target: nat, left: int)
    ensures AfterCut(before.(sized := false), target, left)
            == AfterCut(before, target, left).(sized := false)
            == Image(AfterInvalidate(before.log, target), false, left > 0)
  {
  }

  lemma RollbackOfLog(l: Log<Message>, target: nat)
    ensures InvalidateOutcomeOf(l, target) == RolledBack <==> l.Next() == target + 1
    ensures l.Next() == target + 1 && l.recs != [] ==> AfterInvalidate(l, target) == Log(l.base, l.recs[..|l.recs| - 1])
  {
  }

  /** InvalidateOffset on the log of a follower, in terms of what a restart sees. */
  method RollBack(p: PartitionProcessor, ghost f: Follower, target: nat, fault: TruncateFault)
    returns (r: InvalidateResult, ghost reached: bool, ghost left: int)
    requires p.Valid() && p.View() == Messages(f.log) && p.LastIsActive() == f.lastActive
    modifies p, p.activeSegment
    ensures p.state == old(p.state) && p.syncState == old(p.syncState)
    ensures reached == (p.state == PartitionActive && !fault.TruncateFailed? && f.lastActive
                        && InvalidateOutcomeOf(Messages(f.log), target) == RolledBack)
    ensures Recovers(p.Disk(), TakenBack(f, target, reached, left))
    ensures p.Valid() ==> TakenBack(f, target, reached, left) == Image(p.View(), false, p.LastIsActive())
    ensures p.state == PartitionActive && f.lastActive && InvalidateOutcomeOf(Messages(f.log), target) == RolledBack ==>
              && r != InvalidateNotLast && r != InvalidateInClosedSegment
              && (fault.NoTruncateFault? ==> r == InvalidateOk && p.View() == AfterInvalidate(Messages(f.log), target))
  {
    hide PartitionProcessor.Valid, PartitionProcessor.Sized, PartitionProcessor.Disk, PartitionProcessor.LastIsActive,
         Recovers, AfterCut, InvalidateOutcomeOf, AfterInvalidate, Messages;
    DiskOfValid(p);
    NextOfView(p);
    RollbackOfLog(p.View(), target);
    ghost var before := p.Snapshot();
    left := |p.activeSegment.msgs| - 1;
    reached := p.state == PartitionActive && !fault.TruncateFailed? && f.lastActive
               && InvalidateOutcomeOf(Messages(f.log), target) == RolledBack;
    r := p.InvalidateOffset(target, fault);
    CutKeepsShape(before, target, left);
    RecoversLess(p.Disk(), if reached then AfterCut(before, target, left) else before, false);
    if p.Valid() {
      DiskOfValid(p);
    }
  }

  /** The step that a rollback stands for: delivered, or lost. */
  lemma RollbackSteps(s: State, e: Envelope, tried: bool, left: int) returns (steps: seq<Step>, s': State)
    requires Enabled(s, DeliverInvalidation(e, left > 0))
    ensures Leads(s, steps, s') && FixedIsr(steps) && s'.followers.Keys == s.followers.Keys
    ensures steps == if tried then [DeliverInvalidation(e, left > 0)] else [LoseInvalidation(e)]
    ensures var f, t := s.followers[e.node], s.calls[e.call].target;
            var reached := tried && InvalidateOutcomeOf(Messages(f.log), t) == RolledBack && f.lastActive;
            && s'.followers[e.node].inSync == f.inSync
            && ImageOf(s'.followers[e.node]) == TakenBack(f, t, reached, left)
  {
    var f, k := s.followers[e.node], s.calls[e.call];
    PartitionRefinesProtocol(f.log, f.inSync, k.target, Entry(e.call, k.msg));
    var step := if tried then DeliverInvalidation(e, left > 0) else LoseInvalidation(e);
    steps, s' := [step], Apply(s, step);
    OneStep(s, step);
  }

  lemma MemberIsReached(s: State, e: Envelope, lost: set<CallId>)
    requires InvUpTo(s, lost) && e in s.invalidations && e.node in s.isr
    ensures e.call in s.calls && e.node in s.followers && s.followers[e.node].lastActive
    ensures InvalidateOutcomeOf(Messages(s.followers[e.node].log), s.calls[e.call].target) == RolledBack
    ensures AfterInvalidate(Messages(s.followers[e.node].log), s.calls[e.call].target) == Messages(s.leader)
  {
    var r := Relabel(s, lost);
    assert MemberInv(r, e.node);
    RolledBackLog(r, e);
    PartitionRefinesProtocol(s.followers[e.node].log, false, s.calls[e.call].target, EntryOf(r, e.call));
  }

  /** InvalidateOffset: a rollback that is delivered, or lost if the partition has stopped or the file
      cannot be cut. On an in-sync follower the record always lies in the active segment and is the last
      one, so a partition that is running is never refused the rollback, and afterwards holds the
      leader's log. */
  method DeliverRollbackTo(p: PartitionProcessor, ghost s: State, ghost e: Envelope, target: nat, fault: TruncateFault,
                           ghost lost: set<CallId>)
    returns (r: InvalidateResult, ghost steps: seq<Step>, ghost s': State)
    requires Enabled(s, DeliverInvalidation(e, false)) && Hosts(p, s, e.node) && target == s.calls[e.call].target
    modifies p, p.activeSegment
    ensures Leads(s, steps, s') && FixedIsr(steps) && |steps| == 1
    ensures steps[0] == LoseInvalidation(e)
            || steps[0] == DeliverInvalidation(e, false) || steps[0] == DeliverInvalidation(e, true)
    ensures steps[0] == LoseInvalidation(e) <==> p.state != PartitionActive || fault.TruncateFailed?
    ensures p.Valid() ==> Hosts(p, s', e.node)
    ensures LeavesOnDisk(p, s', e.node)
    ensures InvUpTo(s, lost) && e.node in s.isr && p.state == PartitionActive ==>
              && r != InvalidateNotLast && r != InvalidateInClosedSegment
              && (fault.NoTruncateFault? ==> r == InvalidateOk && p.View() == Messages(s.leader))
  {
    hide PartitionProcessor.Valid, PartitionProcessor.Disk, PartitionProcessor.LastIsActive, Recovers, TakenBack,
         Leads, Apply, InvUpTo, InvalidateOutcomeOf, AfterInvalidate, Messages;
    ghost var reached, left;
    if InvUpTo(s, lost) && e.node in s.isr {
      MemberIsReached(s, e, lost);
    }
    r, reached, left := RollBack(p, s.followers[e.node], target, fault);
    steps, s' := RollbackSteps(s, e, p.state == PartitionActive && !fault.TruncateFailed?, left);
  }

  // --- Catch-up ---

  /** The response of FetchLog, record by record. */
  predicate SameFetch(entries: seq<Message>, highWatermark: nat, fetch: Fetch) {
    && fetch.Fetched? && highWatermark == fetch.highWatermark && |entries| == |fetch.entries|
    && forall k :: 0 <= k < |entries| ==> entries[k] == fetch.entries[k].msg
  }

  lemma FetchStep(s: State, n: NodeId) returns (s': State)
    requires Enabled(s, StartFetch(n))
    ensures Leads(s, [StartFetch(n)], s') && n in s'.followers
    ensures s'.followers[n].fetch == FetchFrom(s, s.followers[n])
    ensures var l, from := Messages(s.leader), s.followers[n].log.Next();
            && SameFetch(Batch(l, from, BATCH_SIZE), l.Next(), FetchFrom(s, s.followers[n]))
  {
    s' := Apply(s, StartFetch(n));
    OneStep(s, StartFetch(n));
    assert |Messages(s.leader).recs| == |s.leader.recs|;
  }

  /** FetchLog served by the leader's partition is the response that the protocol's follower gets. */
  method ServeFetch(leader: PartitionProcessor, ghost s: State, ghost n: NodeId, fromOffset: nat)
    returns (entries: seq<Message>, highWatermark: nat, ghost s': State)
    requires HostsLeader(leader, s) && Enabled(s, StartFetch(n)) && fromOffset == s.followers[n].log.Next()
    ensures SameFetch(entries, highWatermark, FetchFrom(s, s.followers[n]))
    ensures Leads(s, [StartFetch(n)], s') && n in s'.followers && s'.followers[n].fetch == FetchFrom(s, s.followers[n])
  {
    hide PartitionProcessor.Valid, Batch, Messages, SameFetch, Leads, Apply, FetchFrom;
    NextOfView(leader);
    s' := FetchStep(s, n);
    entries, highWatermark := leader.ReadBatch(fromOffset, BATCH_SIZE);
  }

  lemma FetchSteps(s: State, n: NodeId, taken: bool, stopped: bool, rotated: bool, onDisk: bool)
    returns (steps: seq<Step>, s': State)
    requires Enabled(s, ApplyFetched(n)) && (taken ==> onDisk && !stopped)
    ensures Leads(s, steps, s') && FixedIsr(steps) && s'.followers.Keys == s.followers.Keys
    ensures steps == [ApplyFetched(n)] || steps == [AbortFetch(n)] || steps == [FailFetched(n)]
            || steps == [ApplyFetched(n), AbortFetch(n)]
    ensures var outcome := EntryOutcomeOf(s.followers[n].log, s.followers[n].fetch.from);
            var f, f', rec := s.followers[n], s'.followers[n], s.followers[n].fetch.entries[0].msg;
            && Attempted(f, f', rec, !stopped && outcome == Applied && rotated, !stopped && outcome == Applied && onDisk)
            && (!stopped && (taken || outcome != Applied) ==> steps == [ApplyFetched(n)])
            && (stopped || outcome == NonContiguous || (outcome == Applied && !taken) ==> f'.fetch.NoFetch?)
  {
    var f := s.followers[n];
    PartitionRefinesProtocol(f.log, f.inSync, f.fetch.from, f.fetch.entries[0]);
    var outcome := EntryOutcomeOf(f.log, f.fetch.from);
    if stopped || (outcome == Applied && !onDisk && !rotated) {
      steps, s' := [AbortFetch(n)], Apply(s, AbortFetch(n));
      OneStep(s, AbortFetch(n));
    } else if outcome != Applied || taken {
      steps, s' := [ApplyFetched(n)], Apply(s, ApplyFetched(n));
      OneStep(s, ApplyFetched(n));
    } else if onDisk {
      steps, s' := [ApplyFetched(n), AbortFetch(n)], Apply(Apply(s, ApplyFetched(n)), AbortFetch(n));
      TwoSteps(s, ApplyFetched(n), AbortFetch(n));
    } else {
      steps, s' := [FailFetched(n)], Apply(s, FailFetched(n));
      OneStep(s, FailFetched(n));
    }
  }

  /** AppendEntry on a replica that catches up: the first record of the response is applied, or the
      round ends. */
  method ApplyFetchedTo(p: PartitionProcessor, ghost s: State, ghost n: NodeId, offset: nat, timestamp: int,
                        payload: seq<Byte>, faults: AppendFaults)
    returns (r: EntryResult, ghost steps: seq<Step>, ghost s': State)
    requires Enabled(s, ApplyFetched(n)) && Hosts(p, s, n) && offset == s.followers[n].fetch.from
    requires p.nextOffset <= LAST_OFFSET && IsInt64(timestamp)
    requires s.followers[n].fetch.entries[0].msg == Stored(offset, timestamp, payload)
    modifies p, p.activeSegment
    ensures Leads(s, steps, s') && FixedIsr(steps)
    ensures steps == [ApplyFetched(n)] || steps == [AbortFetch(n)] || steps == [FailFetched(n)]
            || steps == [ApplyFetched(n), AbortFetch(n)]
    ensures r.EntryOk? ==> steps == [ApplyFetched(n)] && p.Valid()
    ensures !r.EntryOk? ==> n in s'.followers && s'.followers[n].fetch.NoFetch?
    ensures p.Valid() ==> Hosts(p, s', n)
    ensures LeavesOnDisk(p, s', n)
  {
    hide PartitionProcessor.Valid, PartitionProcessor.Sized, PartitionProcessor.Disk, PartitionProcessor.Rotated,
         PartitionProcessor.LastIsActive, Recovers, Stored, AppendSucceeds, FailsCleanly, OnDisk, Opens, Leads, Apply;
    DiskOfValid(p);
    ghost var f, rec := s.followers[n], s.followers[n].fetch.entries[0].msg;
    ghost var before, size := p.Snapshot(), p.activeSegment.CurrentSize;
    ghost var rotated, onDisk := Opens(size, faults.rotationFails), OnDisk(size, offset, timestamp, payload, faults);
    ghost var stopped, outcome := p.state != PartitionActive, EntryOutcomeOf(p.View(), offset);
    NextOfView(p);
    AttemptCases(size, offset, timestamp, payload, faults);
    PartitionRefinesProtocol(f.log, f.inSync, offset, f.fetch.entries[0]);
    r := p.AppendEntry(offset, timestamp, payload, faults);
    ghost var writes := !stopped && outcome == Applied;
    steps, s' := FetchSteps(s, n, writes && r.EntryOk?, stopped, rotated, onDisk);
    RecoversLess(p.Disk(), if writes then AfterAttempt(before, rec, rotated, onDisk) else before, false);
    if p.Valid() {
      DiskOfValid(p);
    }
  }

  lemma RoundStep(s: State, n: NodeId) returns (s': State)
    requires Enabled(s, FinishRound(n))
    ensures Leads(s, [FinishRound(n)], s') && n in s'.followers
    ensures var f, f' := s.followers[n], s'.followers[n];
            && f'.log == f.log && f'.lastActive == f.lastActive
            && f'.inSync == (f.inSync || Messages(f.log).Next() >= f.fetch.highWatermark)
  {
    s' := Apply(s, FinishRound(n));
    OneStep(s, FinishRound(n));
  }

  /** TryFinalizeInSync ends the round of a response that has been applied. */
  method FinishRoundOf(p: PartitionProcessor, ghost s: State, ghost n: NodeId, observedHW: nat)
    returns (done: bool, ghost s': State)
    requires Enabled(s, FinishRound(n)) && Hosts(p, s, n) && observedHW == s.followers[n].fetch.highWatermark
    modifies p`syncState
    ensures Leads(s, [FinishRound(n)], s') && Hosts(p, s', n)
    ensures done ==> s'.followers[n].inSync
  {
    hide Chain, AllValid, Messages, Leads, Apply;
    NextOfView(p);
    s' := RoundStep(s, n);
    done := p.TryFinalizeInSync(observedHW);
  }

  // --- Crashes ---

  lemma CrashStep(s: State, n: NodeId) returns (s': State)
    requires n in s.followers
    ensures Leads(s, [FollowerCrash(n)], s')
    ensures s' == s.(followers := s.followers[n := s.followers[n].(inSync := false, fetch := NoFetch)])
  {
    s' := Apply(s, FollowerCrash(n));
    OneStep(s, FollowerCrash(n));
  }

  /** Crash and restart: whatever the partition was doing, reopening what it left on disk, in whatever
      order the directory lists it, gives the log of the protocol's follower after its crash. */
  method CrashAndReopen(p: PartitionProcessor, ghost s: State, ghost n: NodeId, listing: seq<File>, startOffset: nat)
    returns (q: PartitionProcessor, ghost s': State)
    requires LeavesOnDisk(p, s, n) && Lists(listing, p.Disk())
    ensures Leads(s, [FollowerCrash(n)], s') && fresh(q) && Hosts(q, s', n)
    ensures s'.followers[n] == s.followers[n].(inSync := false, fetch := NoFetch)
    ensures s'.leader == s.leader && s'.isr == s.isr
  {
    hide Recovers, PartitionProcessor.Disk;
    s' := CrashStep(s, n);
    q := Reopen(p, listing, startOffset, Image(Messages(s.followers[n].log), false, s.followers[n].lastActive));
  }

  /** The same for a partition that was running normally: the restart loses its sync state and nothing else. */
  method RestartRunning(p: PartitionProcessor, ghost s: State, ghost n: NodeId, listing: seq<File>, startOffset: nat)
    returns (q: PartitionProcessor, ghost s': State)
    requires Hosts(p, s, n) && Lists(listing, p.Disk())
    ensures Leads(s, [FollowerCrash(n)], s') && fresh(q) && Hosts(q, s', n)
    ensures q.View() == p.View() && q.LastIsActive() == p.LastIsActive() && q.syncState != StateInSync
    ensures s'.leader == s.leader && s'.isr == s.isr
  {
    hide Recovers, PartitionProcessor.Disk, PartitionProcessor.Valid, PartitionProcessor.LastIsActive;
    HostedIsOnDisk(p, s, n);
    q, s' := CrashAndReopen(p, s, n, listing, startOffset);
  }

  lemma ForceStep(s: State, n: NodeId) returns (s': State)
    requires n in s.followers
    ensures Leads(s, [ForceInSync(n)], s') && s' == s.(followers := s.followers[n := s.followers[n].(inSync := true)])
  {
    s' := Apply(s, ForceInSync(n));
    OneStep(s, ForceInSync(n));
  }

  /** applyTopicParams on a node that etcd counts as in sync: no catch-up, only the state. */
  method ForceInSyncOf(p: PartitionProcessor, ghost s: State, ghost n: NodeId) returns (ghost s': State)
    requires Hosts(p, s, n)
    modifies p`syncState
    ensures Leads(s, [ForceInSync(n)], s') && Hosts(p, s', n) && s'.followers[n].inSync
    ensures s'.leader == s.leader && s'.isr == s.isr
  {
    hide Chain, AllValid, Messages, Leads, Apply;
    s' := ForceStep(s, n);
    p.ForceInSync();
  }

  /** Crash-restart of an in-sync member is sound without catch-up: the reopened partition, forced in
      sync, still holds the leader's log and at most one record more. */
  method RestartMember(p: PartitionProcessor, ghost s: State, ghost n: NodeId, listing: seq<File>, startOffset: nat,
                       ghost lost: set<CallId>)
    returns (q: PartitionProcessor, ghost s': State)
    requires LeavesOnDisk(p, s, n) && Lists(listing, p.Disk())
    requires InvUpTo(s, lost) && n in s.isr
    ensures Leads(s, [FollowerCrash(n), ForceInSync(n)], s') && InvUpTo(s', lost)
    ensures s'.isr == s.isr && s'.leader == s.leader
    ensures fresh(q) && Hosts(q, s', n) && q.syncState == StateInSync
    ensures q.baseOffset == s.leader.base && Messages(s.leader).recs <= q.recs
            && |q.recs| <= |s.leader.recs| + 1
  {
    hide InvUpTo, Recovers, PartitionProcessor.Disk, PartitionProcessor.Valid;
    ghost var between;
    q, between := CrashAndReopen(p, s, n, listing, startOffset);
    s' := ForceInSyncOf(q, between, n);
    TwoSteps(s, FollowerCrash(n), ForceInSync(n));
    LeadsKeeps(s, [FollowerCrash(n), ForceInSync(n)], s', lost);
    MemberLog(s', n, lost);
  }

  lemma MemberLog(s: State, n: NodeId, lost: set<CallId>)
    requires InvUpTo(s, lost) && n in s.isr
    ensures n in s.followers && s.followers[n].log.base == s.leader.base
    ensures Messages(s.leader).recs <= Messages(s.followers[n].log).recs
    ensures |s.followers[n].log.recs| <= |s.leader.recs| + 1
  {
    assert MemberInv(Relabel(s, lost), n);
  }

  // --- The leader ---

  ghost predicate LogOnDisk(p: PartitionProcessor, l: Log<Message>)
    reads p, p.closedSegments, p.Segments()
  {
    exists lastActive: bool :: Recovers(p.Disk(), Image(l, false, lastActive))
  }

  /** What the protocol calls the fault of a commit. */
  function FaultOf(state: PartitionState, succeeds: bool): CommitFault {
    if state != PartitionActive then CommitStopped else if succeeds then NoCommitFault else CommitIoError
  }

  lemma CommitSteps(s: State, c: CallId, fault: CommitFault) returns (steps: seq<Step>, s': State)
    requires Enabled(s, Decide(c))
    ensures var k, outcome := s.calls[c], EntryOutcomeOf(Messages(s.leader), s.calls[c].target);
            var succeeds := fault != CommitStopped && (outcome == Duplicate || (outcome == Applied && fault == NoCommitFault));
            && Leads(s, steps, s') && FixedIsr(steps) && c in s'.calls
            && steps == (if k.isr <= k.acked then [Decide(c), Commit(c, fault)] else [Decide(c)])
            && Messages(s'.leader) == (if k.isr <= k.acked && succeeds then AfterEntry(Messages(s.leader), k.target, k.msg)
                                       else Messages(s.leader))
            && (s'.calls[c].phase.Succeeded? <==> k.isr <= k.acked && succeeds)
            && (s'.calls[c].phase.Failed? <==> !(k.isr <= k.acked && succeeds))
            && (k.isr <= k.acked && !succeeds ==> forall n :: n in k.pushed ==> Envelope(c, n) in s'.invalidations)
  {
    var k := s.calls[c];
    PartitionRefinesProtocol(s.leader, false, k.target, Entry(c, k.msg));
    if k.isr <= k.acked {
      steps, s' := [Decide(c), Commit(c, fault)], Apply(Apply(s, Decide(c)), Commit(c, fault));
      TwoSteps(s, Decide(c), Commit(c, fault));
    } else {
      steps, s' := [Decide(c)], Apply(s, Decide(c));
      OneStep(s, Decide(c));
    }
  }

  lemma Unanimous(replicas: seq<Replica>, leaderId: int, isr: set<NodeId>, acked: set<NodeId>)
    requires forall id :: id in isr <==> exists j :: 0 <= j < |replicas| && replicas[j].id == id
                                                     && id != leaderId && replicas[j].inSync
    ensures isr <= acked <==> forall j :: 0 <= j < |replicas| && replicas[j].id != leaderId && replicas[j].inSync
                                          ==> replicas[j].id in acked
  {
    if isr <= acked {
      forall j | 0 <= j < |replicas| && replicas[j].id != leaderId && replicas[j].inSync ensures replicas[j].id in acked {
        assert replicas[j].id in isr;
      }
    }
    if forall j :: 0 <= j < |replicas| && replicas[j].id != leaderId && replicas[j].inSync ==> replicas[j].id in acked {
      forall id | id in isr ensures id in acked {
        var j :| 0 <= j < |replicas| && replicas[j].id == id && id != leaderId && replicas[j].inSync;
      }
    }
  }

  /** The end of a produce call on the leader is the protocol's decision and commit: unanimity, the
      record at its offset, and a rollback on its way to every replica that was pushed to when the commit
      fails. The disk holds the leader's log too, unless a commit that failed left its record there. */
  method FinishCall(p: PartitionProcessor, ghost s: State, ghost c: CallId, replicas: seq<Replica>, leaderId: int,
                    clients: set<int>, acked: set<int>, target: nat, timestamp: int, payload: seq<Byte>,
                    faults: AppendFaults)
    returns (result: ProduceResult, ghost steps: seq<Step>, ghost s': State)
    requires HostsLeader(p, s) && Enabled(s, Decide(c)) && p.nextOffset <= LAST_OFFSET && IsInt64(timestamp)
    requires var k := s.calls[c];
             && (forall id :: id in k.isr <==> exists j :: 0 <= j < |replicas| && replicas[j].id == id
                                                           && id != leaderId && replicas[j].inSync)
             && k.acked == acked && k.target == target
             && k.msg == Stored(target, timestamp, payload)
             && k.pushed == set id | id in PushTargets(replicas, leaderId, clients)
    modifies p, p.activeSegment
    ensures Leads(s, steps, s') && FixedIsr(steps) && c in s'.calls
    ensures result.QuorumBroken? <==> steps == [Decide(c)]
    ensures !result.QuorumBroken? ==> exists fault :: steps == [Decide(c), Commit(c, fault)]
    ensures result.Produced? <==> s'.calls[c].phase.Succeeded?
    ensures !result.Produced? <==> s'.calls[c].phase.Failed?
    ensures result.CommitFailed? ==>
              forall id :: id in PushTargets(replicas, leaderId, clients) ==> Envelope(c, id) in s'.invalidations
    ensures p.Valid() ==> HostsLeader(p, s')
    ensures var left := result.CommitFailed? && p.state == PartitionActive && target == old(p.nextOffset)
                        && OnDisk(old(p.activeSegment.CurrentSize), target, timestamp, payload, faults);
            LogOnDisk(p, if left then Log(s'.leader.base, Messages(s'.leader).recs + [s.calls[c].msg])
                         else Messages(s'.leader))
  {
    hide PartitionProcessor.Valid, PartitionProcessor.Sized, PartitionProcessor.Disk, PartitionProcessor.LastIsActive,
         Recovers, Stored, AppendSucceeds, FailsCleanly, OnDisk, Opens, Leads, Apply, PushTargets;
    DiskOfValid(p);
    NextOfView(p);
    ghost var before, size := p.Snapshot(), p.activeSegment.CurrentSize;
    ghost var onDisk := OnDisk(size, target, timestamp, payload, faults);
    ghost var outcome := EntryOutcomeOf(p.View(), target);
    AttemptCases(size, target, timestamp, payload, faults);
    Unanimous(replicas, leaderId, s.calls[c].isr, acked);
    ghost var invalidated;
    result, invalidated := FinishProduce(p, replicas, leaderId, clients, acked, target, timestamp, payload, faults);
    ghost var fault := FaultOf(p.state, AppendSucceeds(size, target, timestamp, payload, faults));
    steps, s' := CommitSteps(s, c, fault);
    ghost var image := if !result.QuorumBroken? && p.state == PartitionActive && outcome == Applied
                       then AfterAttempt(before, s.calls[c].msg, Opens(size, faults.rotationFails), onDisk) else before;
    RecoversLess(p.Disk(), image, false);
  }

  /** Crash and restart of the leader: the calls of the dead process have failed, and the partition comes
      back with the log on its disk. That is the leader's log whenever FinishCall leaves it there. */
  method ReopenLeader(p: PartitionProcessor, ghost s: State, listing: seq<File>, startOffset: nat, ghost l: Log<Message>)
    returns (q: PartitionProcessor, ghost s': State)
    requires LogOnDisk(p, l) && Lists(listing, p.Disk())
    ensures Leads(s, [LeaderCrash], s') && s'.leader == s.leader
    ensures forall c :: c in s'.calls ==> !Live(s'.calls[c])
    ensures fresh(q) && q.Valid() && q.View() == l
    ensures l == Messages(s.leader) ==> HostsLeader(q, s')
  {
    hide Recovers, PartitionProcessor.Disk, PartitionProcessor.Valid;
    ghost var lastActive :| Recovers(p.Disk(), Image(l, false, lastActive));
    q := Reopen(p, listing, startOffset, Image(l, false, lastActive));
    s' := Apply(s, LeaderCrash);
    OneStep(s, LeaderCrash);
  }
}
