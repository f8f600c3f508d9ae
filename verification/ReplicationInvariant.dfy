/** The inductive invariant of the replication protocol, and the proof that every step keeps it as
    long as the leader has an in-sync follower. */
module ReplicationInvariant {
  import opened Log
  import opened Replication

  /** The record that call `c` writes. */
  function EntryOf(s: State, c: CallId): Entry
    requires c in s.calls
  {
    Entry(c, s.calls[c].msg)
  }

  /** Follower `n` holds the leader's log and, after it, exactly the record of call `c`, in its active
      segment file. */
  predicate HoldsOneMore(s: State, n: NodeId, c: CallId)
    requires n in s.followers && c in s.calls
  {
    && s.calls[c].target == s.leader.Next()
    && s.followers[n].log == Log(s.leader.base, s.leader.recs + [EntryOf(s, c)])
    && s.followers[n].lastActive
  }

  /** The log of follower `n` is the leader's log, or that and one record more. */
  predicate Agrees(s: State, n: NodeId) {
    && n in s.followers
    && s.followers[n].log.base == s.leader.base
    && s.leader.recs <= s.followers[n].log.recs
    && |s.followers[n].log.recs| <= |s.leader.recs| + 1
  }

  ghost predicate LogAgreement(s: State) {
    forall n :: n in s.isr ==> Agrees(s, n)
  }

  /** The leader waits for this call, and follower `n` has accepted its record. */
  predicate AckedBy(s: State, n: NodeId, c: CallId) {
    && c in s.calls && (s.calls[c].phase.Pushing? || s.calls[c].phase.Committing?)
    && (n in s.calls[c].acked || Envelope(c, n) in s.acks)
  }

  ghost predicate CallInv(s: State, c: CallId)
    requires c in s.calls
  {
    var k := s.calls[c];
    && s.leader.base <= k.target <= s.leader.Next() && k.msg.offset == k.target
    && (Live(k) ==> s.isr <= k.isr)
    && (k.phase.Committing? ==> k.isr <= k.acked)
    && (k.phase.Succeeded? ==> k.target < s.leader.Next()
                               && s.leader.recs[k.target - s.leader.base] == EntryOf(s, c))
  }

  ghost predicate MemberInv(s: State, n: NodeId) {
    && Agrees(s, n)
    && (forall c :: AckedBy(s, n, c) ==> HoldsOneMore(s, n, c))
    && (forall c :: Envelope(c, n) in s.invalidations ==>
          c in s.calls && s.calls[c].phase.Failed? && HoldsOneMore(s, n, c))
  }

  /** A call whose messages are in flight has chosen its offset. */
  ghost predicate SentInv(s: State) {
    && (forall e :: e in s.pushes ==> e.call in s.calls && !s.calls[e.call].phase.Started?)
    && (forall e :: e in s.acks ==> e.call in s.calls && !s.calls[e.call].phase.Started?)
    && (forall e :: e in s.invalidations ==> e.call in s.calls && s.calls[e.call].phase.Failed?)
    && (forall c :: c in s.calls && s.calls[c].phase.Started? ==> s.calls[c].acked == {})
  }

  /** A fetched response repeats the leader's own records and an old high watermark of it. */
  predicate FetchInv(leader: Log<Entry>, f: Follower) {
    && f.log.base == leader.base
    && (f.fetch.Fetched? ==>
          && f.fetch.highWatermark <= leader.Next()
          && leader.base <= f.fetch.from
          && (f.fetch.entries != [] ==>
                && f.fetch.from + |f.fetch.entries| <= leader.Next()
                && f.fetch.entries == Slice(leader, f.fetch.from, f.fetch.from + |f.fetch.entries|)))
  }

  ghost predicate Inv(s: State) {
    && s.isr != {}
    && SentInv(s)
    && (forall c :: c in s.calls ==> CallInv(s, c))
    && (forall n :: n in s.followers ==> FetchInv(s.leader, s.followers[n]))
    && (forall n :: n in s.isr ==> MemberInv(s, n))
  }

  lemma InitHolds(s: State)
    requires Init(s) && s.isr != {}
    ensures Inv(s)
  {
  }

  lemma BeginKeeps(s: State, c: CallId)
    requires Inv(s) && Enabled(s, Begin(c))
    ensures Inv(AfterBegin(s, c))
  {
    var s' := AfterBegin(s, c);
    forall n | n in s'.isr ensures MemberInv(s', n) {
      assert MemberInv(s, n);
      forall d | AckedBy(s', n, d) ensures HoldsOneMore(s', n, d) {
        assert Envelope(c, n) !in s.acks;
        assert d != c && AckedBy(s, n, d);
      }
    }
    forall d | d in s'.calls ensures CallInv(s', d) {
      assert d != c ==> CallInv(s, d);
    }
  }

  lemma PushKeeps(s: State, c: CallId, timestamp: int, payload: seq<Byte>, targets: set<NodeId>)
    requires Inv(s) && Enabled(s, Push(c, timestamp, payload, targets))
    ensures Inv(AfterPushes(s, c, timestamp, payload, targets))
  {
    var s' := AfterPushes(s, c, timestamp, payload, targets);
    forall n | n in s'.isr ensures MemberInv(s', n) {
      assert MemberInv(s, n);
      forall d | AckedBy(s', n, d) ensures HoldsOneMore(s', n, d) {
        assert Envelope(c, n) !in s.acks;
        assert d != c && AckedBy(s, n, d);
      }
    }
    forall d | d in s'.calls ensures CallInv(s', d) {
      assert CallInv(s, d);
    }
  }

  /** An in-sync follower accepts a record only when its log equals the leader's, so no other call
      has its ack and no invalidation is on its way to it. */
  lemma DeliverPushKeeps(s: State, e: Envelope)
    requires Inv(s) && Enabled(s, DeliverPush(e))
    ensures Inv(AfterDeliverPush(s, e))
  {
    var s' := AfterDeliverPush(s, e);
    assert CallInv(s, e.call);
    forall d | d in s'.calls ensures CallInv(s', d) {
      assert CallInv(s, d);
    }
    forall n | n in s'.isr ensures MemberInv(s', n) {
      assert MemberInv(s, n);
      if n == e.node && s'.followers[n].log != s.followers[n].log {
        assert s.followers[n].log == s.leader;
        forall d | AckedBy(s', n, d) ensures HoldsOneMore(s', n, d) {
          assert d != e.call ==> AckedBy(s, n, d);
        }
      } else {
        forall d | AckedBy(s', n, d) ensures HoldsOneMore(s', n, d) {
          assert AckedBy(s, n, d);
        }
      }
    }
  }

  /** An append that fails on an in-sync follower was for a record past the leader's log, so the
      follower had no other record past it: nothing waits for a rollback there. */
  lemma FailPushKeeps(s: State, e: Envelope)
    requires Inv(s) && Enabled(s, FailPush(e))
    ensures Inv(AfterFailPush(s, e))
  {
    var s' := AfterFailPush(s, e);
    assert CallInv(s, e.call);
    forall d | d in s'.calls ensures CallInv(s', d) {
      assert CallInv(s, d);
    }
    forall n | n in s'.isr ensures MemberInv(s', n) {
      assert MemberInv(s, n);
      forall d | AckedBy(s', n, d) ensures HoldsOneMore(s', n, d) {
        assert AckedBy(s, n, d) && HoldsOneMore(s, n, d);
      }
    }
  }

  lemma MemberNotBehind(s: State, n: NodeId)
    requires Inv(s) && n in s.isr
    ensures n in s.followers && s.leader.Next() <= s.followers[n].log.Next()
  {
    assert MemberInv(s, n);
  }

  /** Catch-up has nothing left to write on an in-sync follower. */
  lemma FailFetchedKeeps(s: State, n: NodeId)
    requires Inv(s) && Enabled(s, FailFetched(n))
    ensures Inv(Apply(s, FailFetched(n)))
  {
    hide CallInv, SentInv;
    assert FetchInv(s.leader, s.followers[n]);
    if n in s.isr {
      MemberNotBehind(s, n);
      assert false;
    }
    LogUnchangedKeeps(s, n, s.followers[n].(fetch := NoFetch, lastActive := false));
  }

  lemma DeliverAckKeeps(s: State, e: Envelope)
    requires Inv(s) && Enabled(s, DeliverAck(e))
    ensures Inv(AfterDeliverAck(s, e))
  {
    var s' := AfterDeliverAck(s, e);
    forall d | d in s'.calls ensures CallInv(s', d) {
      assert CallInv(s, d);
    }
    forall n | n in s'.isr ensures MemberInv(s', n) {
      assert MemberInv(s, n);
      forall d | AckedBy(s', n, d) ensures HoldsOneMore(s', n, d) {
        assert AckedBy(s, n, d);
      }
    }
  }

  lemma DecideKeeps(s: State, c: CallId)
    requires Inv(s) && Enabled(s, Decide(c))
    ensures Inv(AfterDecide(s, c))
  {
    var s' := AfterDecide(s, c);
    forall d | d in s'.calls ensures CallInv(s', d) {
      assert CallInv(s, d);
    }
    forall n | n in s'.isr ensures MemberInv(s', n) {
      assert MemberInv(s, n);
      forall d | AckedBy(s', n, d) ensures HoldsOneMore(s', n, d) {
        assert AckedBy(s, n, d);
      }
    }
  }

  /** A call that may commit has the ack of every in-sync follower: each of them holds the leader's
      log and this record, so the leader still is at the call's offset, no other call can commit
      there, and no invalidation is on its way to any of them. */
  lemma CommittingIsAlone(s: State, c: CallId)
    requires Inv(s) && c in s.calls && s.calls[c].phase.Committing?
    ensures s.calls[c].target == s.leader.Next()
    ensures EntryOutcomeOf(s.leader, s.calls[c].target) == Applied
    ensures forall n :: n in s.isr ==> HoldsOneMore(s, n, c)
    ensures forall n, d :: n in s.isr && AckedBy(s, n, d) ==> d == c
    ensures forall n, d :: n in s.isr && Envelope(d, n) in s.invalidations ==> false
  {
    assert CallInv(s, c);
    forall n | n in s.isr
      ensures HoldsOneMore(s, n, c)
      ensures forall d :: AckedBy(s, n, d) ==> d == c
      ensures forall d :: Envelope(d, n) in s.invalidations ==> false
    {
      assert MemberInv(s, n) && AckedBy(s, n, c);
      forall d | AckedBy(s, n, d) ensures d == c {
        assert HoldsOneMore(s, n, d);
        LastEntry(s.leader.recs, EntryOf(s, c), EntryOf(s, d));
      }
      forall d | Envelope(d, n) in s.invalidations ensures false {
        assert HoldsOneMore(s, n, d);
        LastEntry(s.leader.recs, EntryOf(s, c), EntryOf(s, d));
      }
    }
    SomeMember(s.isr);
    var n :| n in s.isr;
    assert HoldsOneMore(s, n, c);
  }

  lemma LastEntry<T>(recs: seq<T>, a: T, b: T)
    requires recs + [a] == recs + [b]
    ensures a == b
  {
    assert (recs + [a])[|recs|] == a;
  }

  lemma CommitKeeps(s: State, c: CallId, fault: CommitFault)
    requires Inv(s) && Enabled(s, Commit(c, fault))
    ensures Inv(AfterCommit(s, c, fault))
  {
    hide CallInv, MemberInv, SentInv;
    CommittingIsAlone(s, c);
    if fault.NoCommitFault? {
      CommitSucceedsKeeps(s, c);
    } else {
      CommitFailsKeeps(s, c, fault);
    }
  }

  lemma CommitSucceedsKeeps(s: State, c: CallId)
    requires Inv(s) && Enabled(s, Commit(c, NoCommitFault))
    ensures Inv(AfterCommit(s, c, NoCommitFault))
  {
    CommittingIsAlone(s, c);
    assert CallInv(s, c);
    var s' := AfterCommit(s, c, NoCommitFault);
    forall d | d in s'.calls ensures CallInv(s', d) {
      assert CallInv(s, d);
    }
    forall n | n in s'.isr ensures MemberInv(s', n) {
      assert MemberInv(s, n) && HoldsOneMore(s, n, c);
      assert Agrees(s', n);
      forall d | AckedBy(s', n, d) ensures false {
        assert AckedBy(s, n, d);
      }
    }
    forall n | n in s'.followers ensures FetchInv(s'.leader, s'.followers[n]) {
      assert FetchInv(s.leader, s.followers[n]);
    }
  }

  lemma CommitFailsKeeps(s: State, c: CallId, fault: CommitFault)
    requires Inv(s) && Enabled(s, Commit(c, fault)) && !fault.NoCommitFault?
    ensures Inv(AfterCommit(s, c, fault))
  {
    CommittingIsAlone(s, c);
    var s' := AfterCommit(s, c, fault);
    forall d | d in s'.calls ensures CallInv(s', d) {
      assert CallInv(s, d);
    }
    forall n | n in s'.isr ensures MemberInv(s', n) {
      assert MemberInv(s, n) && HoldsOneMore(s, n, c);
      forall d | AckedBy(s', n, d) ensures HoldsOneMore(s', n, d) {
        assert AckedBy(s, n, d);
      }
      forall d | Envelope(d, n) in s'.invalidations
        ensures d in s'.calls && s'.calls[d].phase.Failed? && HoldsOneMore(s', n, d)
      {
        assert d == c;
      }
    }
  }

  lemma DeliverInvalidationKeeps(s: State, e: Envelope, lastActive: bool)
    requires Inv(s) && Enabled(s, DeliverInvalidation(e, lastActive))
    ensures Inv(AfterDeliverInvalidation(s, e, lastActive))
  {
    var s' := AfterDeliverInvalidation(s, e, lastActive);
    forall d | d in s'.calls ensures CallInv(s', d) {
      assert CallInv(s, d);
    }
    forall n | n in s'.isr ensures MemberInv(s', n) {
      assert MemberInv(s, n);
      if n == e.node {
        assert HoldsOneMore(s, n, e.call);
        RolledBackLog(s, e);
        forall d | AckedBy(s', n, d) ensures false {
          assert AckedBy(s, n, d) && HoldsOneMore(s, n, d);
          LastEntry(s.leader.recs, EntryOf(s, e.call), EntryOf(s, d));
        }
        forall d | Envelope(d, n) in s'.invalidations ensures false {
          assert HoldsOneMore(s, n, d);
          LastEntry(s.leader.recs, EntryOf(s, e.call), EntryOf(s, d));
        }
      } else {
        forall d | AckedBy(s', n, d) ensures HoldsOneMore(s', n, d) {
          assert AckedBy(s, n, d);
        }
      }
    }
  }

  /** Delivering an invalidation to an in-sync follower takes back exactly the failed record. */
  lemma RolledBackLog(s: State, e: Envelope)
    requires e.call in s.calls && e.node in s.followers && HoldsOneMore(s, e.node, e.call)
    ensures InvalidateOutcomeOf(s.followers[e.node].log, s.calls[e.call].target) == RolledBack
    ensures AfterInvalidate(s.followers[e.node].log, s.calls[e.call].target) == s.leader
  {
    var recs := s.followers[e.node].log.recs;
    assert recs[..|recs| - 1] == s.leader.recs;
  }

  /** Catch-up never changes the log of an in-sync follower: it is never behind the leader. */
  lemma ApplyFetchedKeeps(s: State, n: NodeId)
    requires Inv(s) && Enabled(s, ApplyFetched(n))
    ensures Inv(SetFollower(s, n, ApplyFirst(s.followers[n])))
  {
    var f := s.followers[n];
    var f' := ApplyFirst(f);
    assert FetchInv(s.leader, f);
    assert FetchInv(s.leader, f') by {
      var Fetched(entries, from, hw) := f.fetch;
      assert entries[1..] == Slice(s.leader, from + 1, from + |entries|);
    }
    if n in s.isr {
      assert MemberInv(s, n);
      assert f'.log == f.log && f'.lastActive == f.lastActive;
    }
    LogUnchangedKeeps(s, n, f');
  }

  /** Replacing a follower's state keeps the invariant when the log of a member stays the same. */
  lemma LogUnchangedKeeps(s: State, n: NodeId, f: Follower)
    requires Inv(s) && n in s.followers && FetchInv(s.leader, f)
    requires n in s.isr ==> f.log == s.followers[n].log && f.lastActive == s.followers[n].lastActive
    ensures Inv(SetFollower(s, n, f))
  {
    var s' := SetFollower(s, n, f);
    forall d | d in s'.calls ensures CallInv(s', d) {
      assert CallInv(s, d);
    }
    forall m | m in s'.isr ensures MemberInv(s', m) {
      assert MemberInv(s, m);
      forall d | AckedBy(s', m, d) ensures HoldsOneMore(s', m, d) {
        assert AckedBy(s, m, d);
      }
    }
  }

  /** Losing messages, or the calls of a leader that dies, keeps the invariant. */
  lemma LossKeeps(s: State, s': State)
    requires Inv(s)
    requires s'.leader == s.leader && s'.followers == s.followers && s'.isr == s.isr
    requires s'.pushes <= s.pushes && s'.acks <= s.acks && s'.invalidations <= s.invalidations
    requires s'.calls.Keys == s.calls.Keys
    requires forall c :: c in s.calls ==>
               s'.calls[c] == s.calls[c] || (Live(s.calls[c]) && s'.calls[c] == s.calls[c].(phase := Failed))
    ensures Inv(s')
  {
    forall d | d in s'.calls ensures CallInv(s', d) {
      assert CallInv(s, d);
    }
    forall m | m in s'.isr ensures MemberInv(s', m) {
      assert MemberInv(s, m);
      forall d | AckedBy(s', m, d) ensures HoldsOneMore(s', m, d) {
        assert AckedBy(s, m, d);
      }
    }
  }

  lemma LeaveKeeps(s: State, n: NodeId)
    requires Inv(s) && s.isr - {n} != {}
    ensures Inv(s.(isr := s.isr - {n}))
  {
    var s' := s.(isr := s.isr - {n});
    forall d | d in s'.calls ensures CallInv(s', d) {
      assert CallInv(s, d);
    }
    forall m | m in s'.isr ensures MemberInv(s', m) {
      assert MemberInv(s, m);
      forall d | AckedBy(s', m, d) ensures HoldsOneMore(s', m, d) {
        assert AckedBy(s, m, d);
      }
    }
  }

  /** When a follower may be added to the in-sync set: it agrees with the leader, every unfinished
      call waits for it, and what is in flight about it is about its one extra record. */
  ghost predicate JoinSound(s: State, n: NodeId) {
    MemberInv(s, n) && forall c :: c in s.calls && Live(s.calls[c]) ==> n in s.calls[c].isr
  }

  /** The premise is exact: without it the invariant is gone as soon as the follower is counted. */
  lemma JoinKeepsIff(s: State, n: NodeId)
    requires Inv(s)
    ensures Inv(s.(isr := s.isr + {n})) <==> n in s.isr || JoinSound(s, n)
  {
    var s' := s.(isr := s.isr + {n});
    if n in s.isr {
      assert s' == s;
    } else if JoinSound(s, n) {
      forall d | d in s'.calls ensures CallInv(s', d) {
        assert CallInv(s, d);
      }
      forall m | m in s'.isr ensures MemberInv(s', m) {
        assert MemberInv(s, m);
        forall d | AckedBy(s', m, d) ensures HoldsOneMore(s', m, d) {
          assert AckedBy(s, m, d);
        }
      }
    } else if Inv(s') {
      MemberRestricts(s', n, s.isr);
      forall c | c in s.calls && Live(s.calls[c]) ensures n in s.calls[c].isr {
        assert CallInv(s', c);
      }
    }
  }

  lemma MemberRestricts(s: State, n: NodeId, isr: set<NodeId>)
    requires MemberInv(s, n)
    ensures MemberInv(s.(isr := isr), n)
  {
    var s' := s.(isr := isr);
    forall d | AckedBy(s', n, d) ensures HoldsOneMore(s', n, d) {
      assert AckedBy(s, n, d);
    }
  }

  /** What can be looked up about a follower that is not in the in-sync set: every unfinished call waits
      for it and has no ack from it, and no ack or invalidation about it is on its way. */
  ghost predicate Quiet(s: State, n: NodeId) {
    && n !in s.isr && n in s.followers
    && (forall c :: c in s.calls && Live(s.calls[c]) ==> n in s.calls[c].isr && n !in s.calls[c].acked)
    && (forall e :: e in s.acks || e in s.invalidations ==> e.node != n)
  }

  /** A quiet follower may join the proof's invariant exactly when its log agrees with the leader's. */
  lemma QuietFollowerMayJoin(s: State, n: NodeId)
    requires Quiet(s, n)
    ensures JoinSound(s, n) <==> Agrees(s, n)
  {
    assert forall d :: !AckedBy(s, n, d);
  }

  /** Membership changes that the leader's view of the in-sync set may undergo. */
  ghost predicate Admissible(s: State, step: Step) {
    match step
    case LeaveIsr(n) => s.isr - {n} != {}
    case JoinIsr(n) => n in s.isr || JoinSound(s, n)
    case _ => true
  }

  lemma FetchKeeps(s: State, n: NodeId)
    requires Inv(s) && Enabled(s, StartFetch(n))
    ensures Inv(Apply(s, StartFetch(n)))
  {
    hide CallInv, MemberInv, SentInv;
    assert FetchInv(s.leader, s.followers[n]);
    LogUnchangedKeeps(s, n, s.followers[n].(fetch := FetchFrom(s, s.followers[n])));
  }

  /** Steps of a follower that leave its log alone. */
  lemma FollowerStepKeeps(s: State, step: Step, n: NodeId)
    requires Inv(s) && Enabled(s, step)
    requires step == FinishRound(n) || step == AbortFetch(n) || step == FollowerCrash(n) || step == ForceInSync(n)
    ensures Inv(Apply(s, step))
  {
    hide CallInv, MemberInv, SentInv, Slice;
    assert FetchInv(s.leader, s.followers[n]);
    var f := s.followers[n];
    match step
    case FinishRound(_) => LogUnchangedKeeps(s, n, Finish(f));
    case AbortFetch(_) => LogUnchangedKeeps(s, n, f.(fetch := NoFetch));
    case FollowerCrash(_) => LogUnchangedKeeps(s, n, f.(inSync := false, fetch := NoFetch));
    case ForceInSync(_) => LogUnchangedKeeps(s, n, f.(inSync := true));
  }

  lemma StepKeeps(s: State, step: Step)
    requires Inv(s) && Enabled(s, step) && Admissible(s, step)
    ensures Inv(Apply(s, step))
  {
    hide CallInv, MemberInv, SentInv, JoinSound, AfterBegin, AfterPushes, AfterDeliverPush, AfterDeliverAck, AfterDecide,
         AfterCommit, AfterDeliverInvalidation, AfterFailPush, Batch, FetchInv;
    match step
    case Begin(c) => BeginKeeps(s, c);
    case Push(c, timestamp, payload, targets) => PushKeeps(s, c, timestamp, payload, targets);
    case DeliverPush(e) => DeliverPushKeeps(s, e);
    case DeliverAck(e) => DeliverAckKeeps(s, e);
    case Decide(c) => DecideKeeps(s, c);
    case Commit(c, fault) => CommitKeeps(s, c, fault);
    case DeliverInvalidation(e, lastActive) => DeliverInvalidationKeeps(s, e, lastActive);
    case FailPush(e) => FailPushKeeps(s, e);
    case FailFetched(n) => FailFetchedKeeps(s, n);
    case LosePush(_) => LossKeeps(s, Apply(s, step));
    case LoseAck(_) => LossKeeps(s, Apply(s, step));
    case LoseInvalidation(_) => LossKeeps(s, Apply(s, step));
    case LeaderCrash => LossKeeps(s, Apply(s, step));
    case StartFetch(n) => FetchKeeps(s, n);
    case ApplyFetched(n) => ApplyFetchedKeeps(s, n);
    case FinishRound(n) => FollowerStepKeeps(s, step, n);
    case AbortFetch(n) => FollowerStepKeeps(s, step, n);
    case FollowerCrash(n) => FollowerStepKeeps(s, step, n);
    case ForceInSync(n) => FollowerStepKeeps(s, step, n);
    case LeaveIsr(n) => LeaveKeeps(s, n);
    case JoinIsr(n) =>
      JoinKeepsIff(s, n);
  }
}
