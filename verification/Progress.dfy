/** What the protocol can always bring about: a produce call over level followers goes through, or leaves no
    trace when the leader cannot write; and a follower that lags behind gets level with the leader. */
module Progress {
  import opened Log
  import opened Replication
  import opened ReplicationInvariant
  import opened ReplicationJoin
  import opened ReplicationSafety

  // --- What one message does ---

  /** A push is accepted, and its record put at the end of the log, if and only if the follower is in sync
      and the record is for its own next offset; otherwise nothing changes but that the push is gone. */
  lemma DeliverPushMeans(s: State, e: Envelope)
    requires Enabled(s, DeliverPush(e))
    ensures var t, f, k := Apply(s, DeliverPush(e)), s.followers[e.node], s.calls[e.call];
            && t.pushes == s.pushes - {e}
            && if f.inSync && k.target == f.log.Next() then
                 && t.acks == s.acks + {e}
                 && t.followers == s.followers[e.node := f.(log := Log(f.log.base, f.log.recs + [Entry(e.call, k.msg)]),
                                                            lastActive := true)]
               else t.acks == s.acks && t.followers == s.followers
  {
  }

  /** A rollback takes back the last record, if that is the one and it lies in the active segment file. */
  lemma DeliverInvalidationMeans(s: State, e: Envelope, lastActive: bool)
    requires Enabled(s, DeliverInvalidation(e, lastActive))
    ensures var t, f := Apply(s, DeliverInvalidation(e, lastActive)), s.followers[e.node];
            && t.invalidations == s.invalidations - {e}
            && if f.log.recs != [] && f.log.Next() == s.calls[e.call].target + 1 && f.lastActive then
                 t.followers == s.followers[e.node := f.(log := Log(f.log.base, f.log.recs[..|f.log.recs| - 1]),
                                                         lastActive := lastActive)]
               else forall n :: n in s.followers ==> n in t.followers && t.followers[n].log == s.followers[n].log
  {
  }

  /** The leader's commit writes at its own next offset, counts an offset that is written already as done,
      and fails past its end; whoever was pushed to is then told to take the record back. */
  lemma CommitMeans(s: State, c: CallId, fault: CommitFault)
    requires Enabled(s, Commit(c, fault))
    ensures var t, k, next := Apply(s, Commit(c, fault)), s.calls[c], s.leader.Next();
            var done := fault != CommitStopped && (k.target < next || (k.target == next && fault == NoCommitFault));
            && t.calls[c] == k.(phase := if done then Succeeded else Failed)
            && t.leader == (if done && k.target == next then Log(s.leader.base, s.leader.recs + [Entry(c, k.msg)])
                            else s.leader)
            && t.invalidations == if done then s.invalidations else s.invalidations + EnvelopesTo(c, k.pushed)
  {
  }

  /** Catch-up skips a record that the follower has, appends the next one and ends at a gap. */
  lemma ApplyFetchedMeans(s: State, n: NodeId)
    requires Enabled(s, ApplyFetched(n))
    ensures var f, f' := s.followers[n], Apply(s, ApplyFetched(n)).followers[n];
            var rest := Fetched(f.fetch.entries[1..], f.fetch.from + 1, f.fetch.highWatermark);
            if f.fetch.from < f.log.Next() then f' == f.(fetch := rest)
            else if f.fetch.from == f.log.Next() then
              f' == f.(log := Log(f.log.base, f.log.recs + [f.fetch.entries[0]]), fetch := rest, lastActive := true)
            else f' == f.(fetch := NoFetch)
  {
  }

  /** Any follower may be taken out of the in-sync set at any time. */
  lemma AnyMemberMayLeave(s: State, n: NodeId)
    ensures Enabled(s, LeaveIsr(n)) && Apply(s, LeaveIsr(n)) == s.(isr := s.isr - {n})
  {
  }

  // --- Reaching a state ---

  /** `t` can be reached with the in-sync set as it is. */
  ghost predicate CanReach(s: State, t: State) {
    exists states: seq<State>, steps: seq<Step> ::
      RunFrom(s, states, steps) && FixedIsr(steps) && states[|states| - 1] == t
  }

  lemma ReachHere(s: State)
    ensures CanReach(s, s)
  {
    var states, steps: seq<Step> := [s], [];
    assert RunFrom(s, states, steps) && FixedIsr(steps) && states[|states| - 1] == s;
  }

  lemma ReachStep(s: State, t: State, step: Step)
    requires CanReach(s, t) && Enabled(t, step) && FixedStep(step)
    ensures CanReach(s, Apply(t, step))
  {
    hide Apply, Enabled;
    var states: seq<State>, steps: seq<Step> :|
      RunFrom(s, states, steps) && FixedIsr(steps) && states[|states| - 1] == t;
    var states', steps' := states + [Apply(t, step)], steps + [step];
    forall i | 0 <= i < |steps'| ensures RunsStep(states', steps', i) {
      assert i < |steps| ==> RunsStep(states, steps, i);
    }
    assert RunFrom(s, states', steps') && FixedIsr(steps') && states'[|states'| - 1] == Apply(t, step);
  }

  lemma ReachOn(s: State, t: State, u: State)
    requires CanReach(s, t) && CanReach(t, u)
    ensures CanReach(s, u)
  {
    var first: seq<State>, steps: seq<Step> :| RunFrom(s, first, steps) && FixedIsr(steps) && first[|first| - 1] == t;
    var second: seq<State>, more: seq<Step> :| RunFrom(t, second, more) && FixedIsr(more) && second[|second| - 1] == u;
    var states, all := first[..|first| - 1] + second, steps + more;
    forall i | 0 <= i < |all| ensures RunsStep(states, all, i) {
      if i < |steps| {
        assert RunsStep(first, steps, i);
      } else {
        assert RunsStep(second, more, i - |steps|);
      }
    }
    assert RunFrom(s, states, all) && FixedIsr(all) && states[|states| - 1] == u;
  }

  // --- One produce call ---

  /** The followers with the record `e` added to the logs of `holders`. */
  function WithRecord(s: State, holders: set<NodeId>, e: Entry): map<NodeId, Follower> {
    map n | n in s.followers ::
      var f := s.followers[n];
      if n in holders then f.(log := Log(f.log.base, f.log.recs + [e]), lastActive := true) else f
  }

  /** Call `c` beside whatever else goes on in `s`: who has its record, and who is still to hear of it. */
  function Midway(s: State, c: CallId, k: Call, holders: set<NodeId>, pushed: set<NodeId>, told: set<NodeId>): State {
    State(s.leader, WithRecord(s, holders, Entry(c, k.msg)), s.isr, s.calls[c := k],
          s.pushes + EnvelopesTo(c, pushed), s.acks, s.invalidations + EnvelopesTo(c, told))
  }

  function CallFor(s: State, timestamp: int, payload: seq<Byte>, phase: Phase, acked: set<NodeId>): Call {
    Call(phase, s.isr, s.leader.Next(), Message(s.leader.Next(), timestamp, payload), s.isr, acked)
  }

  /** The followers of `done` have taken the record and acked it. */
  function Acked(s: State, c: CallId, timestamp: int, payload: seq<Byte>, done: set<NodeId>): State {
    Midway(s, c, CallFor(s, timestamp, payload, Pushing, done), done, s.isr - done, {})
  }

  /** Nobody has heard of call `c`, and every in-sync follower is level with the leader. */
  ghost predicate Ready(s: State, c: CallId) {
    && SentInv(s) && c !in s.calls && s.isr <= s.followers.Keys
    && forall n :: n in s.isr ==> s.followers[n].inSync && s.followers[n].log == s.leader
  }

  lemma NothingSent(s: State, c: CallId)
    requires SentInv(s) && c !in s.calls
    ensures forall n :: Envelope(c, n) !in s.pushes && Envelope(c, n) !in s.acks && Envelope(c, n) !in s.invalidations
  {
  }

  lemma CallBegins(s: State, c: CallId, timestamp: int, payload: seq<Byte>)
    requires Ready(s, c)
    ensures CanReach(s, Acked(s, c, timestamp, payload, {}))
  {
    hide CanReach;
    ReachHere(s);
    ReachStep(s, s, Begin(c));
    var begun := Apply(s, Begin(c));
    ReachStep(s, begun, Push(c, timestamp, payload, s.isr));
    var t, pushed := Acked(s, c, timestamp, payload, {}), Apply(begun, Push(c, timestamp, payload, s.isr));
    assert s.isr - {} == s.isr;
    assert pushed.followers == t.followers && pushed.calls == t.calls;
    assert pushed == t;
  }

  lemma CallAcked(s: State, c: CallId, timestamp: int, payload: seq<Byte>, done: set<NodeId>, m: NodeId)
    requires Ready(s, c) && done <= s.isr && m in s.isr - done
    requires CanReach(s, Acked(s, c, timestamp, payload, done))
    ensures CanReach(s, Acked(s, c, timestamp, payload, done + {m}))
  {
    hide CanReach;
    NothingSent(s, c);
    var now, e, t := Acked(s, c, timestamp, payload, done), Envelope(c, m), Acked(s, c, timestamp, payload, done + {m});
    ReachStep(s, now, DeliverPush(e));
    DeliverPushMeans(now, e);
    var taken := Apply(now, DeliverPush(e));
    ReachStep(s, taken, DeliverAck(e));
    var acked := Apply(taken, DeliverAck(e));
    assert acked.followers == t.followers;
    assert acked.pushes == t.pushes && acked.acks == t.acks && acked.calls == t.calls;
    assert acked == t;
  }

  lemma {:induction false} CallAckedByAll(s: State, c: CallId, timestamp: int, payload: seq<Byte>, done: set<NodeId>)
    requires Ready(s, c) && done <= s.isr
    ensures CanReach(s, Acked(s, c, timestamp, payload, done))
    decreases |done|
  {
    hide CanReach, Acked, Ready;
    if done == {} {
      CallBegins(s, c, timestamp, payload);
    } else {
      SomeMember(done);
      var m: NodeId :| m in done;
      CallAckedByAll(s, c, timestamp, payload, done - {m});
      CallAcked(s, c, timestamp, payload, done - {m}, m);
      assert done - {m} + {m} == done;
    }
  }

  /** A produce call can always succeed: whatever else is under way, if every follower that the leader counts
      is in sync and level with it, a new call can put its record at the leader's next offset on the leader
      and on all of them. */
  lemma CallCanSucceed(s: State, c: CallId, timestamp: int, payload: seq<Byte>) returns (t: State)
    requires Ready(s, c)
    ensures CanReach(s, t)
    ensures var e := Entry(c, Message(s.leader.Next(), timestamp, payload));
            && t.leader == Log(s.leader.base, s.leader.recs + [e])
            && c in t.calls && Acknowledged(t, c) && t.calls[c].target == s.leader.Next()
            && t.followers == WithRecord(s, s.isr, e)
            && (forall n :: n in s.isr ==> t.followers[n].log == t.leader)
            && t.calls == s.calls[c := t.calls[c]] && t.isr == s.isr
            && t.pushes == s.pushes && t.acks == s.acks && t.invalidations == s.invalidations
  {
    hide CanReach;
    CallAckedByAll(s, c, timestamp, payload, s.isr);
    var now := Acked(s, c, timestamp, payload, s.isr);
    ReachStep(s, now, Decide(c));
    var decided := Apply(now, Decide(c));
    ReachStep(s, decided, Commit(c, NoCommitFault));
    t := Apply(decided, Commit(c, NoCommitFault));
  }

  /** The commit has failed; all but those of `holders` have taken the record back. */
  function Undone(s: State, c: CallId, timestamp: int, payload: seq<Byte>, holders: set<NodeId>): State {
    Midway(s, c, CallFor(s, timestamp, payload, Failed, s.isr), holders, {}, holders)
  }

  lemma CommitCanFail(s: State, c: CallId, timestamp: int, payload: seq<Byte>)
    requires Ready(s, c)
    ensures CanReach(s, Undone(s, c, timestamp, payload, s.isr))
  {
    hide CanReach;
    CallAckedByAll(s, c, timestamp, payload, s.isr);
    var now := Acked(s, c, timestamp, payload, s.isr);
    ReachStep(s, now, Decide(c));
    var decided := Apply(now, Decide(c));
    ReachStep(s, decided, Commit(c, CommitIoError));
    var t, failed := Undone(s, c, timestamp, payload, s.isr), Apply(decided, Commit(c, CommitIoError));
    assert failed.pushes == t.pushes && failed.invalidations == t.invalidations;
    assert failed == t;
  }

  lemma OneUndone(s: State, c: CallId, timestamp: int, payload: seq<Byte>, holders: set<NodeId>, m: NodeId)
    requires Ready(s, c) && holders <= s.isr && m in holders
    requires CanReach(s, Undone(s, c, timestamp, payload, holders))
    ensures CanReach(s, Undone(s, c, timestamp, payload, holders - {m}))
  {
    hide CanReach;
    NothingSent(s, c);
    var now, t := Undone(s, c, timestamp, payload, holders), Undone(s, c, timestamp, payload, holders - {m});
    var step := DeliverInvalidation(Envelope(c, m), s.followers[m].lastActive);
    ReachStep(s, now, step);
    DeliverInvalidationMeans(now, step.envelope, step.lastActive);
    var next := Apply(now, step);
    assert next.followers == t.followers by {
      var recs, e := s.followers[m].log.recs, Entry(c, Message(s.leader.Next(), timestamp, payload));
      assert (recs + [e])[..|recs|] == recs;
    }
    assert next.invalidations == t.invalidations;
    assert next == t;
  }

  lemma {:induction false} AllUndone(s: State, c: CallId, timestamp: int, payload: seq<Byte>, holders: set<NodeId>)
    requires Ready(s, c) && holders <= s.isr
    requires CanReach(s, Undone(s, c, timestamp, payload, holders))
    ensures CanReach(s, Undone(s, c, timestamp, payload, {}))
    decreases |holders|
  {
    hide CanReach, Undone, Ready;
    SomeMember(holders);
    if holders != {} {
      var m: NodeId :| m in holders;
      OneUndone(s, c, timestamp, payload, holders, m);
      AllUndone(s, c, timestamp, payload, holders - {m});
    }
  }

  /** A produce call that the leader cannot write can leave no trace: once the followers have taken the record
      back, everything is as before the call but that the call is known to have failed. */
  lemma FailedCallCanBeUndone(s: State, c: CallId, timestamp: int, payload: seq<Byte>) returns (t: State)
    requires Ready(s, c)
    ensures CanReach(s, t) && c in t.calls && t.calls[c].phase.Failed?
    ensures t == s.(calls := s.calls[c := t.calls[c]])
  {
    CommitCanFail(s, c, timestamp, payload);
    AllUndone(s, c, timestamp, payload, s.isr);
    t := Undone(s, c, timestamp, payload, {});
    assert t.followers == s.followers;
  }

  // --- Catching up ---

  /** Follower `n` has the leader's first `have` records, and the next `left` are about to be applied. */
  function Fetching(s: State, n: NodeId, have: nat, left: nat): State
    requires n in s.followers && have + left <= |s.leader.recs|
  {
    var f, l := s.followers[n], s.leader;
    SetFollower(s, n, f.(log := Log(l.base, l.recs[..have]),
                         fetch := Fetched(l.recs[have..have + left], l.base + have, l.Next()),
                         lastActive := f.lastActive || have > |f.log.recs|))
  }

  lemma OneApplied(s: State, n: NodeId, have: nat, left: nat)
    requires n in s.followers && |s.followers[n].log.recs| <= have && have + left <= |s.leader.recs| && left > 0
    ensures Enabled(Fetching(s, n, have, left), ApplyFetched(n))
    ensures Apply(Fetching(s, n, have, left), ApplyFetched(n)) == Fetching(s, n, have + 1, left - 1)
  {
    var now, l := Fetching(s, n, have, left), s.leader;
    ApplyFetchedMeans(now, n);
    assert l.recs[..have] + [l.recs[have]] == l.recs[..have + 1];
    assert l.recs[have..have + left][1..] == l.recs[have + 1..have + left];
  }

  lemma {:induction false} BatchApplied(s: State, n: NodeId, have: nat, left: nat)
    requires n in s.followers && |s.followers[n].log.recs| <= have && have + left <= |s.leader.recs|
    requires CanReach(s, Fetching(s, n, have, left))
    ensures CanReach(s, Fetching(s, n, have + left, 0))
    decreases left
  {
    hide CanReach, Fetching, Apply, Enabled;
    if left > 0 {
      OneApplied(s, n, have, left);
      ReachStep(s, Fetching(s, n, have, left), ApplyFetched(n));
      BatchApplied(s, n, have + 1, left - 1);
    }
  }

  /** One round of catch-up, undisturbed. */
  lemma RoundEnds(s: State, n: NodeId) returns (t: State)
    requires Behind(s, n) && s.followers[n].fetch.NoFetch?
    ensures CanReach(s, t) && Behind(t, n) && t == SetFollower(s, n, t.followers[n])
    ensures var f, f' := s.followers[n], t.followers[n];
            && f'.fetch.NoFetch? && f'.inSync == (f.inSync || f'.log == s.leader)
            && |f'.log.recs| == if |f.log.recs| + BATCH_SIZE < |s.leader.recs| then |f.log.recs| + BATCH_SIZE
                                else |s.leader.recs|
  {
    var f, l := s.followers[n], s.leader;
    var have := |f.log.recs|;
    var left := if have + BATCH_SIZE < |l.recs| then BATCH_SIZE else |l.recs| - have;
    StartsFetching(s, n, left);
    BatchApplied(s, n, have, left);
    var now := Fetching(s, n, have + left, 0);
    ReachStep(s, now, FinishRound(n)) by {
      hide CanReach;
    }
    t := Apply(now, FinishRound(n));
    assert l.recs[..|l.recs|] == l.recs;
  }

  lemma StartsFetching(s: State, n: NodeId, left: nat)
    requires Behind(s, n) && s.followers[n].fetch.NoFetch?
    requires var have := |s.followers[n].log.recs|;
             left == if have + BATCH_SIZE < |s.leader.recs| then BATCH_SIZE else |s.leader.recs| - have
    ensures CanReach(s, Fetching(s, n, |s.followers[n].log.recs|, left))
  {
    hide CanReach;
    var f, l := s.followers[n], s.leader;
    ReachHere(s);
    ReachStep(s, s, StartFetch(n));
    var have := |f.log.recs|;
    assert l.recs[..have] == f.log.recs;
    assert Batch(l, f.log.Next(), BATCH_SIZE) == l.recs[have..have + left];
    assert Apply(s, StartFetch(n)) == Fetching(s, n, have, left);
  }

  /** Catch-up can always finish: a follower whose log is a prefix of the leader's gets level with it and in
      sync, and nothing else changes; it may then be counted. */
  lemma {:induction false} CatchUpCanFinish(s: State, n: NodeId) returns (t: State)
    requires Behind(s, n) && s.followers[n].fetch.NoFetch?
    ensures CanReach(s, t) && n in t.followers && t == SetFollower(s, n, t.followers[n])
    ensures t.followers[n].log == s.leader && t.followers[n].inSync && t.followers[n].fetch.NoFetch?
    ensures Enabled(t, JoinIsr(n)) && Apply(t, JoinIsr(n)) == t.(isr := t.isr + {n})
    decreases |s.leader.recs| - |s.followers[n].log.recs|
  {
    hide CanReach;
    var next := RoundEnds(s, n);
    if next.followers[n].log == s.leader {
      t := next;
    } else {
      t := CatchUpCanFinish(next, n);
      ReachOn(s, next, t);
    }
  }
}
