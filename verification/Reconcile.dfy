/** The controller's reconcile pass: one missing replica per partition and pass, and where the passes lead. */
module Reconcile {
  import opened Assignment
  import opened Candidate
  import opened Log
  import opened NodeLoad
  import opened TopicMeta

  // --- A pass ---

  function Desired(t: TopicParams): nat {
    Factor(t.desiredFactor)
  }

  /** Topics are the values of different keys, and a topic's partitions have different ids. */
  ghost predicate KeysDistinct(topics: seq<TopicParams>) {
    && (forall s, t :: 0 <= s < t < |topics| ==> topics[s].name != topics[t].name)
    && forall t :: 0 <= t < |topics| ==> IdsDistinct(topics[t].partitions)
  }

  ghost predicate IdsDistinct(ps: seq<PartitionParams>) {
    forall j, k :: 0 <= j < k < |ps| ==> ps[j].partitionId != ps[k].partitionId
  }

  function FindTopic(topics: seq<TopicParams>, name: string): (i: nat)
    ensures i <= |topics|
    ensures i < |topics| ==> topics[i].name == name
    ensures forall j :: 0 <= j < i ==> topics[j].name != name
  {
    if topics == [] || topics[0].name == name then 0 else 1 + FindTopic(topics[1..], name)
  }

  /** AddReplicaToPartition, with no other writer. */
  function AddReplicaTo(topics: seq<TopicParams>, name: string, partitionId: int, node: NodeId): seq<TopicParams> {
    var i := FindTopic(topics, name);
    if i == |topics| then topics
    else match Mutate(AddReplica(partitionId, node), topics[i].partitions)
         case None => topics
         case Some(ps) => topics[i := topics[i].(partitions := ps)]
  }

  predicate IsVisit(topics: seq<TopicParams>, i: nat, k: nat) {
    i < |topics| && k < |topics[i].partitions|
  }

  /** One visit of a pass: partition k of topic i as the pass has listed it, while the store holds `now`.
      The controller knows what it has read at this moment, perhaps not the load. */
  ghost predicate Visit(before: seq<TopicParams>, now: seq<TopicParams>, after: seq<TopicParams>, members: set<NodeId>,
                        i: nat, k: nat, q: Knowledge, candidate: NodeId)
    requires IsVisit(before, i, k)
  {
    var t, p := before[i], before[i].partitions[k];
    if |p.replicas| >= Desired(t) then after == now
    else
      && q.topic == t.name && q.partitionId == p.partitionId && (q.topics == Some(now) || q.topics == None)
      && Picked(q, Eligible(members, p.replicas), candidate)
      && after == if candidate == 0 then now else AddReplicaTo(now, t.name, p.partitionId, candidate)
  }

  function Row(i: nat, n: nat): (visits: seq<(nat, nat)>)
    ensures |visits| == n && forall k :: 0 <= k < n ==> visits[k] == (i, k)
  {
    seq(n, k requires 0 <= k => (i, k))
  }

  /** The visits of a pass in their order. */
  function Visits(topics: seq<TopicParams>): seq<(nat, nat)> {
    if topics == [] then []
    else Visits(topics[..|topics| - 1]) + Row(|topics| - 1, |topics[|topics| - 1].partitions|)
  }

  /** These visits, one after the other, can leave the store with `after`. */
  ghost predicate Reach(before: seq<TopicParams>, members: set<NodeId>, visits: seq<(nat, nat)>, after: seq<TopicParams>)
    decreases |visits|
  {
    if visits == [] then after == before
    else
      var (i, k) := visits[|visits| - 1];
      && IsVisit(before, i, k)
      && exists mid, q, candidate :: Reach(before, members, visits[..|visits| - 1], mid)
                                     && Visit(before, mid, after, members, i, k, q, candidate)
  }

  ghost predicate Pass(before: seq<TopicParams>, after: seq<TopicParams>, members: set<NodeId>) {
    Reach(before, members, Visits(before), after)
  }

  lemma OneMoreVisit(before: seq<TopicParams>, members: set<NodeId>, visits: seq<(nat, nat)>, now: seq<TopicParams>,
                     after: seq<TopicParams>, i: nat, k: nat, q: Knowledge, candidate: NodeId)
    requires Reach(before, members, visits, now)
    requires IsVisit(before, i, k) && Visit(before, now, after, members, i, k, q, candidate)
    ensures Reach(before, members, visits + [(i, k)], after)
  {
    assert (visits + [(i, k)])[..|visits|] == visits;
  }

  /** reconcileReplication over the topics as they are listed at its start; what the nodes report about
      their disks may be different every time it is read, and the load may be unreadable. */
  method ReconcileReplication(topics: seq<TopicParams>, members: set<NodeId>, reports: (nat, nat) -> Reports,
                              loadRead: (nat, nat) -> bool)
    returns (after: seq<TopicParams>)
    ensures Pass(topics, after, members)
  {
    hide Picked, Reach, Eligible, AddReplicaTo;
    after := topics;
    NoVisits(topics, members);
    for i := 0 to |topics|
      invariant Reach(topics, members, Visits(topics[..i]), after)
    {
      var t := topics[i];
      assert Visits(topics[..i]) + Row(i, 0) == Visits(topics[..i]);
      for k := 0 to |t.partitions|
        invariant Reach(topics, members, Visits(topics[..i]) + Row(i, k), after)
      {
        var p, now := t.partitions[k], after;
        var q := Knowledge(if loadRead(i, k) then Some(now) else None, reports(i, k), t.name, p.partitionId);
        var candidate := 0;
        if |p.replicas| < Desired(t) {
          candidate := PickReplicaCandidate(q, members, p.replicas);
          if candidate != 0 {
            after := AddReplicaTo(now, t.name, p.partitionId, candidate);
          }
        }
        OneMoreVisit(topics, members, Visits(topics[..i]) + Row(i, k), now, after, i, k, q, candidate);
        assert Visits(topics[..i]) + Row(i, k + 1) == Visits(topics[..i]) + Row(i, k) + [(i, k)];
      }
      assert topics[..i + 1][..i] == topics[..i];
    }
    assert topics[..|topics|] == topics;
  }

  lemma NoVisits(topics: seq<TopicParams>, members: set<NodeId>)
    ensures Reach(topics, members, Visits(topics[..0]), topics)
  {
  }

  // --- What a pass does to each partition ---

  /** One partition before and after a pass: nothing has changed if it has enough replicas or nobody can
      take it, and otherwise one eligible node has been added; or nobody, if node 0 is eligible. */
  ghost predicate Passed(p: PartitionParams, p': PartitionParams, desired: nat, members: set<NodeId>) {
    var eligible := Eligible(members, p.replicas);
    if |p.replicas| >= desired || eligible == {} then p' == p
    else (p' == p && 0 in eligible)
         || (|p'.replicas| == |p.replicas| + 1
             && p' == p.(replicas := p.replicas + [p'.replicas[|p.replicas|]])
             && p'.replicas[|p.replicas|] in eligible - {0})
  }

  /** The first n partitions have been visited. */
  ghost predicate Visited(t: TopicParams, t': TopicParams, members: set<NodeId>, n: nat) {
    && n <= |t.partitions| == |t'.partitions| && t'.name == t.name && t'.desiredFactor == t.desiredFactor
    && (forall k :: 0 <= k < n ==> Passed(t.partitions[k], t'.partitions[k], Desired(t), members))
    && (forall k :: n <= k < |t.partitions| ==> t'.partitions[k] == t.partitions[k])
    && (forall k :: 0 <= k < |t.partitions| ==> t'.partitions[k].partitionId == t.partitions[k].partitionId)
  }

  ghost predicate Repaired(before: seq<TopicParams>, after: seq<TopicParams>, members: set<NodeId>) {
    && |after| == |before|
    && forall t :: 0 <= t < |before| ==> Visited(before[t], after[t], members, |before[t].partitions|)
  }

  lemma AddHits(topics: seq<TopicParams>, i: nat, k: nat, node: NodeId)
    requires KeysDistinct(topics) && i < |topics| && k < |topics[i].partitions|
    requires node !in topics[i].partitions[k].replicas
    ensures var ps := topics[i].partitions;
            AddReplicaTo(topics, topics[i].name, ps[k].partitionId, node)
            == topics[i := topics[i].(partitions := ps[k := ps[k].(replicas := ps[k].replicas + [node])])]
  {
    assert FindTopic(topics, topics[i].name) == i;
    assert IdsDistinct(topics[i].partitions);
    FindFirst(topics[i].partitions, topics[i].partitions[k].partitionId, k);
  }

  lemma VisitOne(t: TopicParams, t': TopicParams, members: set<NodeId>, k: nat, p': PartitionParams)
    requires Visited(t, t', members, k) && k < |t.partitions|
    requires Passed(t.partitions[k], p', Desired(t), members) && p'.partitionId == t.partitions[k].partitionId
    ensures Visited(t, t'.(partitions := t'.partitions[k := p']), members, k + 1)
  {
    hide Passed;
  }

  /** The topics in the middle of a pass: i topics are done, and n partitions of the next one. */
  ghost predicate PassedUpTo(before: seq<TopicParams>, now: seq<TopicParams>, members: set<NodeId>, i: nat, n: nat) {
    && i <= |before| == |now|
    && (forall t :: 0 <= t < i ==> Visited(before[t], now[t], members, |before[t].partitions|))
    && (i < |before| ==> Visited(before[i], now[i], members, n))
    && (forall t :: i < t < |before| ==> now[t] == before[t])
  }

  lemma KeysStay(before: seq<TopicParams>, now: seq<TopicParams>, members: set<NodeId>, i: nat, n: nat)
    requires KeysDistinct(before) && PassedUpTo(before, now, members, i, n)
    ensures KeysDistinct(now)
  {
    hide Passed;
    forall t | 0 <= t < |now| ensures now[t].name == before[t].name && IdsDistinct(now[t].partitions) {
      assert IdsDistinct(before[t].partitions);
    }
  }

  lemma VisitPasses(before: seq<TopicParams>, now: seq<TopicParams>, after: seq<TopicParams>, members: set<NodeId>,
                    i: nat, k: nat, q: Knowledge, candidate: NodeId)
    requires KeysDistinct(before) && IsVisit(before, i, k) && PassedUpTo(before, now, members, i, k)
    requires Visit(before, now, after, members, i, k, q, candidate)
    ensures PassedUpTo(before, after, members, i, k + 1)
  {
    hide KeysDistinct, Picked;
    var t, p := before[i], before[i].partitions[k];
    assert p == now[i].partitions[k] && Desired(t) == Desired(now[i]) && t.name == now[i].name;
    var p' := p;
    if |p.replicas| < Desired(t) {
      PickedIsEligible(q, Eligible(members, p.replicas), candidate);
      if candidate != 0 {
        p' := p.(replicas := p.replicas + [candidate]);
        KeysStay(before, now, members, i, k);
        AddHits(now, i, k, candidate);
      }
    }
    assert after[i].partitions == now[i].partitions[k := p'];
    VisitOne(before[i], now[i], members, k, p');
  }

  lemma LastVisit(before: seq<TopicParams>, members: set<NodeId>, front: seq<(nat, nat)>, i: nat, k: nat,
                  now: seq<TopicParams>) returns (mid: seq<TopicParams>, q: Knowledge, candidate: NodeId)
    requires Reach(before, members, front + [(i, k)], now)
    ensures IsVisit(before, i, k) && Reach(before, members, front, mid)
    ensures Visit(before, mid, now, members, i, k, q, candidate)
  {
    hide Visit;
    assert (front + [(i, k)])[..|front|] == front;
    mid, q, candidate :| Reach(before, members, front, mid) && Visit(before, mid, now, members, i, k, q, candidate);
  }

  lemma NextTopic(before: seq<TopicParams>, now: seq<TopicParams>, members: set<NodeId>, i: nat)
    requires i < |before| && PassedUpTo(before, now, members, i, |before[i].partitions|)
    ensures PassedUpTo(before, now, members, i + 1, 0)
  {
    hide Passed;
  }

  lemma FirstTopic(before: seq<TopicParams>, members: set<NodeId>)
    ensures PassedUpTo(before, before, members, 0, 0)
  {
  }

  lemma {:induction false} ReachPasses(before: seq<TopicParams>, members: set<NodeId>, i: nat, n: nat, now: seq<TopicParams>)
    requires KeysDistinct(before) && i <= |before| && (if i < |before| then n <= |before[i].partitions| else n == 0)
    requires Reach(before, members, Visits(before[..i]) + Row(i, n), now)
    ensures PassedUpTo(before, now, members, i, n)
    decreases i, n
  {
    hide KeysDistinct, Visit, PassedUpTo, Reach;
    if n > 0 {
      assert Visits(before[..i]) + Row(i, n) == Visits(before[..i]) + Row(i, n - 1) + [(i, n - 1)];
      var mid, q, candidate := LastVisit(before, members, Visits(before[..i]) + Row(i, n - 1), i, n - 1, now);
      ReachPasses(before, members, i, n - 1, mid);
      VisitPasses(before, mid, now, members, i, n - 1, q, candidate);
    } else if i > 0 {
      var m := |before[i - 1].partitions|;
      assert before[..i][..i - 1] == before[..i - 1] && before[..i][i - 1] == before[i - 1];
      assert Visits(before[..i]) + Row(i, 0) == Visits(before[..i - 1]) + Row(i - 1, m);
      ReachPasses(before, members, i - 1, m, now);
      NextTopic(before, now, members, i - 1);
    } else {
      NothingReached(before, members, now);
      FirstTopic(before, members);
    }
  }

  lemma NothingReached(before: seq<TopicParams>, members: set<NodeId>, now: seq<TopicParams>)
    requires Reach(before, members, Visits(before[..0]) + Row(0, 0), now)
    ensures now == before
  {
    assert Visits(before[..0]) + Row(0, 0) == [];
  }

  lemma PassRepairs(before: seq<TopicParams>, after: seq<TopicParams>, members: set<NodeId>)
    requires KeysDistinct(before) && Pass(before, after, members)
    ensures Repaired(before, after, members) && KeysDistinct(after)
  {
    assert before[..|before|] == before && Visits(before) + Row(|before|, 0) == Visits(before);
    ReachPasses(before, members, |before|, 0, after);
    KeysStay(before, after, members, |before|, 0);
  }

  // --- Where the passes lead ---

  ghost predicate PassAt(runs: seq<seq<TopicParams>>, members: set<NodeId>, n: nat)
    requires n + 1 < |runs|
  {
    Pass(runs[n], runs[n + 1], members)
  }

  /** One pass after the other, with the same members and no other writer. */
  ghost predicate Passes(runs: seq<seq<TopicParams>>, members: set<NodeId>) {
    forall n :: 0 <= n < |runs| - 1 ==> PassAt(runs, members, n)
  }

  function IdSet(ids: seq<NodeId>): set<NodeId> {
    set id | id in ids
  }

  function Min(a: nat, b: nat): nat {
    if a < b then a else b
  }

  /** What has become of partition `p` after n passes: nothing but its replicas has changed, they have
      grown at the end only, by members, without duplicates, and not above the desired factor. */
  ghost predicate GrownFrom(p: PartitionParams, p': PartitionParams, desired: nat, members: set<NodeId>) {
    && p' == p.(replicas := p'.replicas) && p.replicas <= p'.replicas
    && Distinct(p'.replicas) && IdSet(p'.replicas) <= IdSet(p.replicas) + members
    && (|p'.replicas| == |p.replicas| || |p'.replicas| <= desired)
    && (0 !in p.replicas ==> 0 !in p'.replicas)
  }

  /** The number of replicas after n passes: one more per pass, up to the desired factor and to what
      the replicas and the members allow. */
  function ReplicasAfter(p: PartitionParams, desired: nat, members: set<NodeId>, n: nat): nat {
    if |p.replicas| >= desired then |p.replicas|
    else Min(Min(desired, |p.replicas| + n), |IdSet(p.replicas) + members|)
  }

  lemma {:induction false} DistinctSize(ids: seq<NodeId>)
    requires Distinct(ids)
    ensures |IdSet(ids)| == |ids|
  {
    if ids != [] {
      var front, last := ids[..|ids| - 1], ids[|ids| - 1];
      DistinctSize(front);
      assert IdSet(ids) == IdSet(front) + {last} && last !in IdSet(front);
    }
  }

  lemma Subset(s: set<NodeId>, t: set<NodeId>)
    requires s <= t
    ensures |s| <= |t| && (|s| == |t| <==> s == t)
  {
    var rest := t - s;
    assert t == s + rest;
    assert |t| == |s| + |rest|;
  }

  lemma PassGrows(p: PartitionParams, now: PartitionParams, after: PartitionParams, desired: nat, members: set<NodeId>)
    requires GrownFrom(p, now, desired, members) && Passed(now, after, desired, members)
    ensures GrownFrom(p, after, desired, members)
  {
    if after != now {
      assert after.replicas[|now.replicas|] in Eligible(members, now.replicas);
    }
  }

  lemma PassAddsOne(p: PartitionParams, now: PartitionParams, after: PartitionParams, desired: nat,
                    members: set<NodeId>, n: nat)
    requires GrownFrom(p, now, desired, members) && Passed(now, after, desired, members) && 0 !in members
    requires |now.replicas| == ReplicasAfter(p, desired, members, n)
    ensures |after.replicas| == ReplicasAfter(p, desired, members, n + 1)
  {
    var all := IdSet(p.replicas) + members;
    DistinctSize(now.replicas);
    Subset(IdSet(now.replicas), all);
    Subset(IdSet(p.replicas), all);
    DistinctSizeOfPrefix(p.replicas, now.replicas);
    if Eligible(members, now.replicas) == {} {
      assert IdSet(now.replicas) == all by {
        forall id | id in members ensures id in now.replicas {
          assert id !in Eligible(members, now.replicas);
        }
        assert forall id :: id in p.replicas ==> id in now.replicas;
      }
    } else {
      SomeMember(Eligible(members, now.replicas));
      var id: NodeId :| id in Eligible(members, now.replicas);
      assert id in all && id !in IdSet(now.replicas);
    }
  }

  lemma DistinctSizeOfPrefix(s: seq<NodeId>, t: seq<NodeId>)
    requires s <= t && Distinct(t)
    ensures Distinct(s) && |IdSet(s)| == |s|
  {
    assert forall i :: 0 <= i < |s| ==> s[i] == t[i];
    DistinctSize(s);
  }

  /** In every run of passes, whatever the nodes report and in whatever order the members are gone
      through: a partition only gains replicas, never above its desired factor, never one twice, and
      never node 0. */
  lemma {:induction false} PassesOnlyRepair(runs: seq<seq<TopicParams>>, members: set<NodeId>, n: nat, t: nat, k: nat)
    requires Passes(runs, members) && n < |runs| && IsVisit(runs[0], t, k) && KeysDistinct(runs[0])
    requires Distinct(runs[0][t].partitions[k].replicas)
    ensures t < |runs[n]| && k < |runs[n][t].partitions| && runs[n][t].desiredFactor == runs[0][t].desiredFactor
    ensures GrownFrom(runs[0][t].partitions[k], runs[n][t].partitions[k], Desired(runs[0][t]), members)
  {
    hide GrownFrom, Passed, KeysDistinct, Pass;
    var p := runs[0][t].partitions[k];
    if n == 0 {
      NotGrown(p, Desired(runs[0][t]), members);
    } else {
      PassesOnlyRepair(runs, members, n - 1, t, k);
      KeysStayAlong(runs, members, n - 1);
      assert PassAt(runs, members, n - 1);
      PassRepairs(runs[n - 1], runs[n], members);
      PassGrows(p, runs[n - 1][t].partitions[k], runs[n][t].partitions[k], Desired(runs[0][t]), members);
    }
  }

  lemma {:induction false} KeysStayAlong(runs: seq<seq<TopicParams>>, members: set<NodeId>, n: nat)
    requires Passes(runs, members) && n < |runs| && KeysDistinct(runs[0])
    ensures KeysDistinct(runs[n])
  {
    hide KeysDistinct, Pass;
    if n > 0 {
      KeysStayAlong(runs, members, n - 1);
      assert PassAt(runs, members, n - 1);
      PassRepairs(runs[n - 1], runs[n], members);
    }
  }

  lemma NotGrown(p: PartitionParams, desired: nat, members: set<NodeId>)
    requires Distinct(p.replicas)
    ensures GrownFrom(p, p, desired, members)
  {
  }

  /** Reconciliation converges: unless 0 is the id of a member, every pass takes one from the deficit of
      every partition that some member can still join, and after as many passes as the deficit a
      partition has the desired number of replicas, or all the nodes that there are. */
  lemma {:induction false} RepairConverges(runs: seq<seq<TopicParams>>, members: set<NodeId>, n: nat, t: nat, k: nat)
    requires Passes(runs, members) && n < |runs| && IsVisit(runs[0], t, k) && KeysDistinct(runs[0])
    requires Distinct(runs[0][t].partitions[k].replicas) && 0 !in members
    ensures t < |runs[n]| && k < |runs[n][t].partitions|
    ensures var p, desired, found := runs[0][t].partitions[k], Desired(runs[0][t]), |runs[n][t].partitions[k].replicas|;
            && found == ReplicasAfter(p, desired, members, n)
            && (|p.replicas| <= desired <= |p.replicas| + n ==> found == Min(desired, |IdSet(p.replicas) + members|))
    ensures var asked := runs[0][t].desiredFactor; Desired(runs[0][t]) == if asked > 0 then asked else 3
  {
    hide GrownFrom, Passed, KeysDistinct, Pass;
    PassesOnlyRepair(runs, members, n, t, k);
    var p, desired := runs[0][t].partitions[k], Desired(runs[0][t]);
    ReplicasFit(p, members);
    if n > 0 {
      RepairConverges(runs, members, n - 1, t, k);
      PassesOnlyRepair(runs, members, n - 1, t, k);
      KeysStayAlong(runs, members, n - 1);
      assert PassAt(runs, members, n - 1);
      PassRepairs(runs[n - 1], runs[n], members);
      PassAddsOne(p, runs[n - 1][t].partitions[k], runs[n][t].partitions[k], desired, members, n - 1);
    }
  }

  lemma ReplicasFit(p: PartitionParams, members: set<NodeId>)
    requires Distinct(p.replicas)
    ensures |p.replicas| <= |IdSet(p.replicas) + members|
  {
    DistinctSize(p.replicas);
    Subset(IdSet(p.replicas), IdSet(p.replicas) + members);
  }

  /** With a member whose id is 0, a partition that needs every node is never repaired. */
  lemma NodeZeroIsMissed(runs: seq<seq<TopicParams>>, members: set<NodeId>, n: nat, t: nat, k: nat)
    requires Passes(runs, members) && n < |runs| && IsVisit(runs[0], t, k) && KeysDistinct(runs[0])
    requires Distinct(runs[0][t].partitions[k].replicas)
    requires 0 in members && 0 !in runs[0][t].partitions[k].replicas
    ensures t < |runs[n]| && k < |runs[n][t].partitions|
    ensures |runs[n][t].partitions[k].replicas| < |IdSet(runs[0][t].partitions[k].replicas) + members|
  {
    PassesOnlyRepair(runs, members, n, t, k);
    var p, p' := runs[0][t].partitions[k], runs[n][t].partitions[k];
    DistinctSize(p'.replicas);
    Subset(IdSet(p'.replicas), IdSet(p.replicas) + members);
    assert 0 in IdSet(p.replicas) + members;
  }

  // --- Exactly when every run of passes converges ---

  /** After as many passes as its deficit, the partition has the desired number of replicas or all nodes. */
  ghost predicate ConvergesAt(runs: seq<seq<TopicParams>>, members: set<NodeId>, n: nat, t: nat, k: nat)
    requires n < |runs| && IsVisit(runs[0], t, k)
  {
    var p, desired := runs[0][t].partitions[k], Desired(runs[0][t]);
    |p.replicas| <= desired <= |p.replicas| + n ==>
      IsVisit(runs[n], t, k) && |runs[n][t].partitions[k].replicas| == Min(desired, |IdSet(p.replicas) + members|)
  }

  ghost predicate Converges(members: set<NodeId>) {
    forall runs: seq<seq<TopicParams>>, n: nat, t: nat, k: nat ::
      && Passes(runs, members) && n < |runs| && KeysDistinct(runs[0]) && IsVisit(runs[0], t, k)
      && Distinct(runs[0][t].partitions[k].replicas)
      ==> ConvergesAt(runs, members, n, t, k)
  }

  lemma {:induction false} Listing(ids: set<NodeId>) returns (s: seq<NodeId>)
    ensures Distinct(s) && forall id :: id in s <==> id in ids
    decreases |ids|
  {
    SomeMember(ids);
    if ids == {} {
      s := [];
    } else {
      var id: NodeId :| id in ids;
      var rest := Listing(ids - {id});
      s := rest + [id];
    }
  }

  /** A topic of factor 1: one partition without replicas, and one with every member but 0, so that node
      0 is the least loaded. */
  function StuckTopic(others: seq<NodeId>): TopicParams {
    TopicParams("", 1, [PartitionParams(0, 0, [], []), PartitionParams(1, 0, others, [])])
  }

  lemma StuckLoad(others: seq<NodeId>, id: NodeId)
    requires Distinct(others)
    ensures ReplicaLoad([StuckTopic(others)], id) == if id in others then 1 else 0
  {
    DistinctOnce(others, id);
    var ps := StuckTopic(others).partitions;
    assert ps[..1] == [ps[0]] && ps[..1][..0] == [];
    assert ReplicasOn(ps, id) == ReplicasOn(ps[..1], id) + multiset(others)[id];
    assert ReplicasOn(ps[..1], id) == 0;
    assert [StuckTopic(others)][..0] == [];
  }

  lemma StuckVisit(members: set<NodeId>, others: seq<NodeId>, k: nat)
    requires 0 in members && Distinct(others) && (forall id :: id in others <==> id in members - {0}) && k < 2
    ensures var w, q := [StuckTopic(others)], Knowledge(Some([StuckTopic(others)]), map[], "", k);
            Visit(w, w, w, members, 0, k, q, 0)
  {
    var w := [StuckTopic(others)];
    var q, p := Knowledge(Some(w), map[], "", k), w[0].partitions[k];
    var eligible := Eligible(members, p.replicas);
    if |p.replicas| < 1 {
      forall id | id in eligible && id != 0 ensures Lighter(q, 0, id) {
        StuckLoad(others, 0);
        StuckLoad(others, id);
      }
      assert 0 in eligible && LeastLoaded(q, eligible, 0) && NobodyHolds(q, eligible);
    }
  }

  /** With a member whose id is 0, a partition can stay without a replica in every pass. */
  lemma StuckRun(members: set<NodeId>) returns (runs: seq<seq<TopicParams>>)
    requires 0 in members
    ensures |runs| == 2 && Passes(runs, members) && KeysDistinct(runs[0]) && IsVisit(runs[0], 0, 0)
    ensures runs[0] == runs[1] && runs[0][0].partitions[0].replicas == [] && Desired(runs[0][0]) == 1
  {
    hide Visit;
    var others := Listing(members - {0});
    var w := [StuckTopic(others)];
    runs := [w, w];
    var none: seq<(nat, nat)> := [];
    assert Reach(w, members, none, w);
    StuckVisit(members, others, 0);
    OneMoreVisit(w, members, none, w, w, 0, 0, Knowledge(Some(w), map[], "", 0), 0);
    StuckVisit(members, others, 1);
    OneMoreVisit(w, members, [(0, 0)], w, w, 0, 1, Knowledge(Some(w), map[], "", 1), 0);
    assert w[..0] == [] && Visits(w) == [(0, 0)] + [(0, 1)];
    assert PassAt(runs, members, 0);
  }

  /** All runs of passes over these members converge, if and only if none of them has the id 0. */
  lemma ConvergesIffNoNodeZero(members: set<NodeId>)
    ensures Converges(members) <==> 0 !in members
  {
    hide Passes, KeysDistinct;
    if 0 in members {
      var runs: seq<seq<TopicParams>> := StuckRun(members);
      var none: seq<NodeId> := runs[0][0].partitions[0].replicas;
      Subset({0}, IdSet(none) + members);
      assert !ConvergesAt(runs, members, 1, 0, 0);
    } else {
      forall runs: seq<seq<TopicParams>>, n: nat, t: nat, k: nat |
          && Passes(runs, members) && n < |runs| && KeysDistinct(runs[0]) && IsVisit(runs[0], t, k)
          && Distinct(runs[0][t].partitions[k].replicas)
        ensures ConvergesAt(runs, members, n, t, k)
      {
        RepairConverges(runs, members, n, t, k);
      }
    }
  }
}
