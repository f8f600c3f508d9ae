/** What consumers see on followers. A follower serves reads while it is in sync by its own flag; the
    leader's in-sync set, which commits wait for, is another thing. */
module Serving {
  import opened Log
  import opened Replication
  import opened ReplicationInvariant
  import opened ReplicationJoin
  import opened ReplicationOrigin
  import opened ReplicationSafety
  import opened Progress

  predicate HoldsRecord(l: Log<Entry>, offset: nat, e: Entry) {
    l.base <= offset < l.Next() && l.recs[offset - l.base] == e
  }

  /** What follower `n` holds are the leader's records, and past the leader's end at most one. */
  ghost predicate ServesCommitted(s: State, n: NodeId)
    requires n in s.followers
  {
    var l := s.followers[n].log;
    && l.base == s.leader.base && l.Next() <= s.leader.Next() + 1
    && forall k :: 0 <= k < |l.recs| && l.base + k < s.leader.Next() ==> HoldsRecord(s.leader, l.base + k, l.recs[k])
  }

  lemma AgreeingServes(s: State, n: NodeId)
    requires Agrees(s, n)
    ensures ServesCommitted(s, n)
  {
    var l := s.followers[n].log;
    forall k | 0 <= k < |l.recs| && l.base + k < s.leader.Next() ensures HoldsRecord(s.leader, l.base + k, l.recs[k]) {
      assert l.recs[k] == s.leader.recs[k];
    }
  }

  /** What a consumer reads from a follower that the leader counts in sync, at any moment of any run: the
      leader's own records up to the leader's end, and past it at most one, which is then the last. */
  lemma FollowerServesCommitted(states: seq<State>, steps: seq<Step>, i: nat, n: NodeId, lo: nat, hi: nat)
    requires Run(states, steps) && SoundJoins(states, steps) && i < |states|
    requires n in states[i].isr && n in states[i].followers
    requires var log := states[i].followers[n].log; log.base <= lo <= hi <= log.Next()
    ensures var s := states[i];
            var read := Slice(s.followers[n].log, lo, hi);
            && hi <= s.leader.Next() + 1
            && forall k :: 0 <= k < |read| ==>
                 if lo + k < s.leader.Next() then HoldsRecord(s.leader, lo + k, read[k])
                 else lo + k == s.leader.Next() && k == |read| - 1
  {
    hide Run, SoundJoins, Agrees, ServesCommitted;
    AgreementFromCreation(states, steps, i);
    AgreeingServes(states[i], n);
    ReadServes(states[i], n, lo, hi);
  }

  lemma ReadServes(s: State, n: NodeId, lo: nat, hi: nat)
    requires n in s.followers && ServesCommitted(s, n)
    requires var log := s.followers[n].log; log.base <= lo <= hi <= log.Next()
    ensures var read := Slice(s.followers[n].log, lo, hi);
            && hi <= s.leader.Next() + 1
            && forall k :: 0 <= k < |read| ==>
                 if lo + k < s.leader.Next() then HoldsRecord(s.leader, lo + k, read[k])
                 else lo + k == s.leader.Next() && k == |read| - 1
  {
    var l, read := s.followers[n].log, Slice(s.followers[n].log, lo, hi);
    forall k | 0 <= k < |read| && lo + k < s.leader.Next() ensures HoldsRecord(s.leader, lo + k, read[k]) {
      assert HoldsRecord(s.leader, l.base + (lo - l.base + k), l.recs[lo - l.base + k]);
    }
  }

  // --- Followers that serve by their own flag ---

  /** At every moment every follower that serves reads serves committed records, and at most one more. */
  ghost predicate AllServe(states: seq<State>) {
    forall i, n {:trigger ServesCommitted(states[i], n)} ::
      0 <= i < |states| && n in states[i].followers && states[i].followers[n].inSync ==> ServesCommitted(states[i], n)
  }

  /** A run of the followers `f`, who all start with the leader's log, with the in-sync set `q` throughout. */
  ghost predicate LevelRun(states: seq<State>, steps: seq<Step>, q: set<NodeId>, f: set<NodeId>) {
    && Run(states, steps) && FixedIsr(steps)
    && states[0].isr == q && states[0].followers.Keys == f
    && forall n :: n in f ==> states[0].followers[n].log == states[0].leader
  }

  lemma {:induction false} FollowersStay(states: seq<State>, steps: seq<Step>, i: nat)
    requires Run(states, steps) && i < |states|
    ensures states[i].followers.Keys == states[0].followers.Keys
  {
    if i > 0 {
      FollowersStay(states, steps, i - 1);
      assert RunsStep(states, steps, i - 1);
      LeaderGrows(states[i - 1], steps[i - 1]);
    }
  }

  lemma {:induction false} IsrStays(states: seq<State>, steps: seq<Step>, i: nat)
    requires Run(states, steps) && FixedIsr(steps) && i < |states|
    ensures states[i].isr == states[0].isr
  {
    if i > 0 {
      IsrStays(states, steps, i - 1);
      assert RunsStep(states, steps, i - 1);
      IsrAfter(states[i - 1], steps[i - 1]);
    }
  }

  // --- A run that shows an uncommitted record ---

  function Record(c: CallId): Entry {
    Entry(c, Message(0, 0, [c % 256]))
  }

  function FollowerWith(recs: seq<Entry>): Follower {
    Follower(Log(0, recs), true, NoFetch, true)
  }

  /** The followers `f`, all empty but `b`, which has the record of call 1 if `taken`. */
  function StrayFollowers(f: set<NodeId>, b: NodeId, taken: bool): map<NodeId, Follower> {
    map n | n in f :: FollowerWith(if n == b && taken then [Record(1)] else [])
  }

  function StrayStart(f: set<NodeId>, q: set<NodeId>): State {
    State(Log(0, []), StrayFollowers(f, 0, false), q, map[], {}, {}, {})
  }

  /** Call 1 has reached follower `b` alone. */
  function StrayBefore(f: set<NodeId>, q: set<NodeId>, b: NodeId): State {
    State(Log(0, []), StrayFollowers(f, b, true), q, map[1 := Call(Pushing, q, 0, Record(1).msg, {b}, {})],
          {}, {Envelope(1, b)}, {})
  }

  lemma StrayReachesOne(f: set<NodeId>, q: set<NodeId>, b: NodeId)
    requires b in f - q && q <= f
    ensures CanReach(StrayStart(f, q), StrayBefore(f, q, b))
  {
    hide CanReach;
    var s0, e := StrayStart(f, q), Envelope(1, b);
    ReachHere(s0);
    ReachStep(s0, s0, Begin(1));
    var s1 := Apply(s0, Begin(1));
    ReachStep(s0, s1, Push(1, 0, [1], {b}));
    var s2 := Apply(s1, Push(1, 0, [1], {b}));
    assert s2.calls[1] == Call(Pushing, q, 0, Record(1).msg, {b}, {});
    ReachStep(s0, s2, DeliverPush(e));
    DeliverPushMeans(s2, e);
    var s3 := Apply(s2, DeliverPush(e));
    assert s3.followers[b] == FollowerWith([Record(1)]) by {
      assert Log(0, []).recs + [Record(1)] == [Record(1)];
    }
    assert s3.followers == StrayFollowers(f, b, true);
    assert s3 == StrayBefore(f, q, b);
  }

  /** Any follower that the leader does not count can be brought to serve, in sync by its own flag, the
      record of a call that has not succeeded, where the leader has another record. */
  lemma StrayIsServed(f: set<NodeId>, q: set<NodeId>, b: NodeId) returns (t: State)
    requires b in f - q && q <= f
    ensures CanReach(StrayStart(f, q), t) && b in t.followers && t.followers[b].inSync
    ensures t.followers[b].log == Log(0, [Record(1)]) && 1 in t.calls && !Acknowledged(t, 1)
    ensures t.leader == Log(0, [Record(2)]) && Acknowledged(t, 2)
  {
    hide CanReach;
    StrayReachesOne(f, q, b);
    var before := StrayBefore(f, q, b);
    t := CallCanSucceed(before, 2, 0, [2]);
    ReachOn(StrayStart(f, q), before, t);
  }

  // --- The exact condition ---

  /** Where the leader counts every follower, all that serve serve committed records. */
  lemma CountedServe(states: seq<State>, steps: seq<Step>, q: set<NodeId>)
    requires LevelRun(states, steps, q, q)
    ensures AllServe(states)
  {
    forall i, n | 0 <= i < |states| && n in states[i].followers && states[i].followers[n].inSync
      ensures ServesCommitted(states[i], n)
    {
      AgreementFromCreation(states, steps, i);
      FollowersStay(states, steps, i);
      IsrStays(states, steps, i);
      AgreeingServes(states[i], n);
    }
  }

  lemma SomeUncounted(q: set<NodeId>, f: set<NodeId>)
    requires q <= f
    ensures q == f || exists b :: b in f - q
  {
    SomeMember(f - q);
    if f - q == {} {
      assert forall n :: n in f ==> n in q || n in f - q;
    }
  }

  /** For every in-sync set and every set of followers that start with the leader's log: in all runs with
      that in-sync set, all followers that are in sync by their own flag serve only what has been
      committed and at most one record more, if and only if the leader counts every follower. */
  lemma AllServeIffAllCounted(q: set<NodeId>, f: set<NodeId>)
    requires q <= f
    ensures (forall states, steps :: LevelRun(states, steps, q, f) ==> AllServe(states)) <==> q == f
  {
    forall states, steps | LevelRun(states, steps, q, q)
      ensures AllServe(states)
    {
      CountedServe(states, steps, q);
    }
    if q != f {
      SomeUncounted(q, f);
      var b :| b in f - q;
      var t := StrayIsServed(f, q, b);
      StrayRun(f, q, b, t);
    }
  }

  lemma StrayRun(f: set<NodeId>, q: set<NodeId>, b: NodeId, t: State)
    requires q <= f && CanReach(StrayStart(f, q), t) && b in t.followers && t.followers[b].inSync
    requires t.followers[b].log == Log(0, [Record(1)]) && t.leader == Log(0, [Record(2)])
    ensures exists states, steps :: LevelRun(states, steps, q, f) && !AllServe(states)
  {
    var states: seq<State>, steps: seq<Step> :|
      RunFrom(StrayStart(f, q), states, steps) && FixedIsr(steps) && states[|states| - 1] == t;
    assert !ServesCommitted(states[|states| - 1], b) by {
      assert !HoldsRecord(t.leader, 0, t.followers[b].log.recs[0]);
    }
    assert Init(states[0]) && LevelRun(states, steps, q, f);
  }
}
