/** CreateTopic: the greedy placement of replicas and leaders, and how far it balances them. */
module Assignment {
  import opened Log
  import opened NodeLoad
  import opened TopicMeta

  const DEFAULT_FACTOR: nat := 3

  /** The partitions placed so far and the running counters. */
  datatype Plan = Plan(partitions: seq<PartitionParams>, replicas: Counters, leaders: Counters)

  /** The alive nodes, each listed once, and no fewer than the replication factor. */
  predicate Enough(ids: seq<NodeId>, rf: nat) {
    Distinct(ids) && 1 <= rf <= |ids|
  }

  function Chosen(replicas: Counters, ids: seq<NodeId>, rf: nat): seq<NodeId> {
    var sorted := SortByLoad(replicas, ids);
    if rf <= |sorted| then sorted[..rf] else sorted
  }

  /** The leader among the chosen nodes: the least loaded by leader count. */
  function LeaderOf(leaders: Counters, chosen: seq<NodeId>): NodeId
    requires chosen != [] && Distinct(chosen)
  {
    SortKeepsMembers(leaders, chosen);
    SortByLoad(leaders, chosen)[0]
  }

  lemma ChosenIsLeast(replicas: Counters, ids: seq<NodeId>, rf: nat)
    requires Enough(ids, rf)
    ensures var chosen := Chosen(replicas, ids, rf);
            && |chosen| == rf && Distinct(chosen) && (forall a :: a in chosen ==> a in ids)
            && forall a, b :: a in chosen && b in ids && b !in chosen ==> Before(replicas, a, b)
  {
    SortIsOrdered(replicas, ids);
    SortKeepsMembers(replicas, ids);
    var sorted, chosen := SortByLoad(replicas, ids), Chosen(replicas, ids, rf);
    forall a, b | a in chosen && b in ids && b !in chosen ensures Before(replicas, a, b) {
      var i :| 0 <= i < rf && chosen[i] == a;
      var j :| 0 <= j < |sorted| && sorted[j] == b;
      assert sorted[i] == a;
      forall k | 0 <= k < rf ensures sorted[k] in chosen {
        assert chosen[k] == sorted[k];
      }
    }
  }

  lemma LeaderIsLeast(leaders: Counters, chosen: seq<NodeId>)
    requires chosen != [] && Distinct(chosen)
    ensures LeaderOf(leaders, chosen) in chosen
    ensures forall id :: id in chosen && id != LeaderOf(leaders, chosen)
                         ==> Before(leaders, LeaderOf(leaders, chosen), id)
  {
    SortIsOrdered(leaders, chosen);
    SortKeepsMembers(leaders, chosen);
    var sorted := SortByLoad(leaders, chosen);
    forall id | id in chosen && id != sorted[0] ensures Before(leaders, sorted[0], id) {
      var j :| 0 <= j < |sorted| && sorted[j] == id;
    }
  }

  /** One round of the loop. */
  function Place(plan: Plan, ids: seq<NodeId>, rf: nat): Plan
    requires Enough(ids, rf)
  {
    ChosenIsLeast(plan.replicas, ids, rf);
    var chosen := Chosen(plan.replicas, ids, rf);
    var leader := LeaderOf(plan.leaders, chosen);
    Plan(plan.partitions + [PartitionParams(|plan.partitions|, leader, chosen, [leader])],
         BumpAll(plan.replicas, chosen), Bump(plan.leaders, leader))
  }

  function PlanFor(replicas: Counters, leaders: Counters, ids: seq<NodeId>, rf: nat, n: nat): Plan
    requires Enough(ids, rf)
  {
    if n == 0 then Plan([], replicas, leaders) else Place(PlanFor(replicas, leaders, ids, rf, n - 1), ids, rf)
  }

  // --- The loop ---

  method PickLeader(leaders: Counters, chosen: seq<NodeId>) returns (leader: NodeId)
    requires chosen != [] && Distinct(chosen)
    ensures leader == LeaderOf(leaders, chosen) && leader in chosen
    ensures forall id :: id in chosen && id != leader ==>
              Count(leaders, leader) < Count(leaders, id) || (Count(leaders, leader) == Count(leaders, id) && leader < id)
  {
    leader := chosen[0];
    for i := 1 to |chosen|
      invariant leader in chosen
      invariant forall j :: 0 <= j < i ==> chosen[j] == leader || Before(leaders, leader, chosen[j])
    {
      var id := chosen[i];
      if Count(leaders, id) < Count(leaders, leader) || (Count(leaders, id) == Count(leaders, leader) && id < leader) {
        leader := id;
      }
    }
    LeaderIsLeast(leaders, chosen);
  }

  /** Sorting the list again, however the last round left it, gives the nodes to choose. */
  lemma SortedChoice(replicas: Counters, listed: seq<NodeId>, ids: seq<NodeId>, rf: nat)
    requires Enough(listed, rf) && Enough(ids, rf) && multiset(listed) == multiset(ids)
    ensures var sorted := SortByLoad(replicas, listed);
            && Enough(sorted, rf) && multiset(sorted) == multiset(ids)
            && sorted[..rf] == Chosen(replicas, ids, rf) && Distinct(sorted[..rf])
  {
    SortIgnoresOrder(replicas, listed, ids);
    SortIsOrdered(replicas, listed);
    SortKeepsMembers(replicas, listed);
  }

  /** The assignment loop over the list of alive nodes, which it sorts again for every partition. */
  method AssignPartitions(alive: array<NodeId>, rf: nat, numPartitions: nat, topics: seq<TopicParams>)
    returns (plan: Plan, ghost replicas: Counters, ghost leaders: Counters)
    requires Enough(alive[..], rf)
    modifies alive
    ensures CountsLoad(topics, replicas, leaders)
    ensures plan == PlanFor(replicas, leaders, old(alive[..]), rf, numPartitions)
  {
    hide SortByLoad, BumpAll, Distinct, Chosen, LeaderOf, Ordered, CountsLoad;
    ghost var ids := alive[..];
    var replicaCount, leaderCount := ComputeNodeLoadFrom(topics);
    replicas, leaders := replicaCount, leaderCount;
    var partitions: seq<PartitionParams> := [];
    for i := 0 to numPartitions
      invariant Enough(alive[..], rf) && multiset(alive[..]) == multiset(ids)
      invariant Plan(partitions, replicaCount, leaderCount) == PlanFor(replicas, leaders, ids, rf, i)
      invariant |partitions| == i
    {
      SortedChoice(replicaCount, alive[..], ids, rf);
      SortSlice(alive, replicaCount);
      var chosen := alive[..rf];
      var leader := PickLeader(leaderCount, chosen);
      replicaCount := CountUp(replicaCount, chosen);
      leaderCount := Bump(leaderCount, leader);
      partitions := partitions + [PartitionParams(i, leader, chosen, [leader])];
    }
    plan := Plan(partitions, replicaCount, leaderCount);
  }

  // --- CreateTopic ---

  /** What a call to etcd gives: an error, or its answer. */
  datatype Reply<T> = Failed | Answer(value: T)

  datatype Outcome =
    | NotController
    | BadRequest
    | AlreadyExists
    | NotEnoughNodes
    | LostRace
    | StoreError
    | Created(params: TopicParams)

  function Factor(requested: int): nat {
    if requested <= 0 then DEFAULT_FACTOR else requested
  }

  /** A new topic: as many partitions as asked for, each with its replicas on different alive nodes. */
  ghost predicate WellPlaced(params: TopicParams, name: string, rf: nat, n: nat, ids: seq<NodeId>) {
    && params.name == name && params.desiredFactor == rf && |params.partitions| == n
    && forall i :: 0 <= i < n ==> Placed(params.partitions[i], i, ids, rf)
  }

  /** `existing`, `viewRead` and `put` are what etcd answers to the topic lookup, to the reading of the
      cluster view and to the write that requires the key to be absent. */
  method CreateTopic(isController: bool, name: string, numPartitions: int, replicationFactor: int,
                     existing: Reply<bool>, viewRead: bool, alive: array<NodeId>, topics: seq<TopicParams>,
                     put: Reply<bool>)
    returns (outcome: Outcome, ghost replicas: Counters, ghost leaders: Counters)
    requires Distinct(alive[..])
    modifies alive
    ensures outcome.Created? <==>
              && isController && name != "" && numPartitions > 0 && existing == Answer(false) && viewRead
              && Factor(replicationFactor) <= alive.Length && put == Answer(true)
    ensures outcome.Created? ==>
              outcome.params.desiredFactor == if replicationFactor > 0 then replicationFactor else 3
    ensures outcome.Created? ==>
              && WellPlaced(outcome.params, name, Factor(replicationFactor), numPartitions, old(alive[..]))
              && Sound(outcome.params.partitions)
              && CountsLoad(topics, replicas, leaders) && Enough(old(alive[..]), Factor(replicationFactor))
              && outcome.params.partitions
                 == PlanFor(replicas, leaders, old(alive[..]), Factor(replicationFactor), numPartitions).partitions
    ensures !isController <==> outcome == NotController
    ensures isController && (name == "" || numPartitions <= 0) <==> outcome == BadRequest
    ensures outcome == AlreadyExists <==>
              isController && name != "" && numPartitions > 0 && existing == Answer(true)
    ensures outcome == NotEnoughNodes <==>
              && isController && name != "" && numPartitions > 0 && existing == Answer(false) && viewRead
              && alive.Length < if replicationFactor > 0 then replicationFactor else 3
    ensures outcome == LostRace <==>
              && isController && name != "" && numPartitions > 0 && existing == Answer(false) && viewRead
              && Factor(replicationFactor) <= alive.Length && put == Answer(false)
  {
    replicas, leaders := map[], map[];
    if !isController {
      outcome := NotController;
      return;
    }
    if name == "" || numPartitions <= 0 {
      outcome := BadRequest;
      return;
    }
    var rf := Factor(replicationFactor);
    if existing.Failed? {
      outcome := StoreError;
      return;
    }
    if existing.value {
      outcome := AlreadyExists;
      return;
    }
    if !viewRead {
      outcome := StoreError;
      return;
    }
    if alive.Length < rf {
      outcome := NotEnoughNodes;
      return;
    }
    ghost var ids := alive[..];
    var plan;
    plan, replicas, leaders := AssignPartitions(alive, rf, numPartitions, topics);
    var params := TopicParams(name, rf, plan.partitions);
    if put.Failed? {
      outcome := StoreError;
      return;
    }
    if !put.value {
      outcome := LostRace;
      return;
    }
    PlanHasEveryPartition(replicas, leaders, ids, rf, numPartitions);
    outcome := Created(params);
  }

  // --- What the plan is made of ---

  lemma {:induction false} PlanHasEveryPartition(replicas: Counters, leaders: Counters, ids: seq<NodeId>, rf: nat, n: nat)
    requires Enough(ids, rf)
    ensures var ps := PlanFor(replicas, leaders, ids, rf, n).partitions;
            |ps| == n && forall i :: 0 <= i < n ==> Placed(ps[i], i, ids, rf)
  {
    hide Place, Placed, Enough;
    if n > 0 {
      PlanHasEveryPartition(replicas, leaders, ids, rf, n - 1);
      PlacePlaces(PlanFor(replicas, leaders, ids, rf, n - 1), ids, rf);
    }
  }

  lemma PlacePlaces(plan: Plan, ids: seq<NodeId>, rf: nat)
    requires Enough(ids, rf)
    ensures var n, ps := |plan.partitions|, Place(plan, ids, rf).partitions;
            |ps| == n + 1 && ps[..n] == plan.partitions && Placed(ps[n], n, ids, rf)
  {
    hide SortByLoad, BumpAll;
    ChosenIsLeast(plan.replicas, ids, rf);
    LeaderIsLeast(plan.leaders, Chosen(plan.replicas, ids, rf));
  }

  /** `p` goes to the nodes with the least load and is led by the one of these that leads least; between
      equal counts the smaller id comes first. */
  ghost predicate Greedy(p: PartitionParams, load: Counters, led: Counters, ids: seq<NodeId>) {
    && (forall a, b :: a in p.replicas && b in ids && b !in p.replicas ==>
          Count(load, a) < Count(load, b) || (Count(load, a) == Count(load, b) && a < b))
    && (forall a :: a in p.replicas && a != p.leader ==>
          Count(led, p.leader) < Count(led, a) || (Count(led, p.leader) == Count(led, a) && p.leader < a))
  }

  lemma PlaceIsGreedy(plan: Plan, ids: seq<NodeId>, rf: nat)
    requires Enough(ids, rf)
    ensures plan.partitions < Place(plan, ids, rf).partitions
    ensures |Place(plan, ids, rf).partitions| == |plan.partitions| + 1
    ensures Greedy(Place(plan, ids, rf).partitions[|plan.partitions|], plan.replicas, plan.leaders, ids)
  {
    hide SortByLoad, BumpAll;
    ChosenIsLeast(plan.replicas, ids, rf);
    LeaderIsLeast(plan.leaders, Chosen(plan.replicas, ids, rf));
  }

  /** Each partition is placed greedily, with the counters as they stand after the partitions before it. */
  lemma {:induction false} PlanIsGreedy(replicas: Counters, leaders: Counters, ids: seq<NodeId>, rf: nat, n: nat, i: nat)
    requires Enough(ids, rf) && i < n
    ensures |PlanFor(replicas, leaders, ids, rf, n).partitions| == n
    ensures var before := PlanFor(replicas, leaders, ids, rf, i);
            Greedy(PlanFor(replicas, leaders, ids, rf, n).partitions[i], before.replicas, before.leaders, ids)
  {
    hide Place, Greedy, Placed;
    PlanHasEveryPartition(replicas, leaders, ids, rf, n - 1);
    PlaceIsGreedy(PlanFor(replicas, leaders, ids, rf, n - 1), ids, rf);
    if i < n - 1 {
      PlanIsGreedy(replicas, leaders, ids, rf, n - 1, i);
    }
  }

  /** Partition i of a new topic: `rf` different alive nodes, one of them the leader, which alone is in sync. */
  ghost predicate Placed(p: PartitionParams, i: nat, ids: seq<NodeId>, rf: nat) {
    && p.partitionId == i && |p.replicas| == rf && Distinct(p.replicas)
    && (forall id :: id in p.replicas ==> id in ids)
    && p.leader in p.replicas && p.isr == [p.leader]
  }

  lemma PlaceIgnoresOrder(plan: Plan, s: seq<NodeId>, t: seq<NodeId>, rf: nat)
    requires Enough(s, rf) && Enough(t, rf) && multiset(s) == multiset(t)
    ensures Place(plan, s, rf) == Place(plan, t, rf)
  {
    hide SortByLoad, BumpAll;
    SortIgnoresOrder(plan.replicas, s, t);
  }

  /** The plan does not depend on the order in which the alive nodes are listed (they come from a map). */
  lemma {:induction false} PlanIgnoresOrder(replicas: Counters, leaders: Counters, s: seq<NodeId>, t: seq<NodeId>,
                                            rf: nat, n: nat)
    requires Enough(s, rf) && Enough(t, rf) && multiset(s) == multiset(t)
    ensures PlanFor(replicas, leaders, s, rf, n) == PlanFor(replicas, leaders, t, rf, n)
  {
    hide SortByLoad, BumpAll, LeaderOf, Distinct;
    if n > 0 {
      PlanIgnoresOrder(replicas, leaders, s, t, rf, n - 1);
      var before := PlanFor(replicas, leaders, s, rf, n - 1);
      PlaceIgnoresOrder(before, s, t, rf);
    }
  }

  /** The running counters are what counting the topics again would give, with the new one among them. */
  lemma CountersAreRecomputed(topics: seq<TopicParams>, name: string, replicas: Counters, leaders: Counters,
                              ids: seq<NodeId>, rf: nat, n: nat)
    requires Enough(ids, rf) && CountsLoad(topics, replicas, leaders)
    ensures var plan := PlanFor(replicas, leaders, ids, rf, n);
            CountsLoad(topics + [TopicParams(name, rf, plan.partitions)], plan.replicas, plan.leaders)
  {
    var plan := PlanFor(replicas, leaders, ids, rf, n);
    CountersFollow(topics, replicas, leaders, ids, rf, n);
    CountTopic(topics, TopicParams(name, rf, plan.partitions), plan.replicas, plan.leaders);
  }

  lemma {:induction false} CountersFollow(topics: seq<TopicParams>, replicas: Counters, leaders: Counters,
                                          ids: seq<NodeId>, rf: nat, n: nat)
    requires Enough(ids, rf) && CountsLoad(topics, replicas, leaders)
    ensures var plan := PlanFor(replicas, leaders, ids, rf, n);
            CountsPart(topics, plan.partitions, plan.replicas, plan.leaders)
  {
    hide CountsPart, CountsLoad, Place, Enough;
    if n == 0 {
      CountsNoPart(topics, replicas, leaders);
    } else {
      CountersFollow(topics, replicas, leaders, ids, rf, n - 1);
      PlaceCounts(topics, PlanFor(replicas, leaders, ids, rf, n - 1), ids, rf);
    }
  }

  lemma PlaceCounts(topics: seq<TopicParams>, plan: Plan, ids: seq<NodeId>, rf: nat)
    requires Enough(ids, rf) && CountsPart(topics, plan.partitions, plan.replicas, plan.leaders)
    ensures var next := Place(plan, ids, rf); CountsPart(topics, next.partitions, next.replicas, next.leaders)
  {
    hide CountsPart, SortByLoad, BumpAll;
    var next := Place(plan, ids, rf);
    CountPartition(topics, plan.partitions, next.partitions[|plan.partitions|], plan.replicas, plan.leaders);
  }

  // --- Balance ---

  /** No node of `ids` has more than `d` above another. */
  ghost predicate Within(c: Counters, ids: seq<NodeId>, d: nat) {
    forall a, b {:trigger Count(c, a), Count(c, b)} :: a in ids && b in ids ==> Count(c, a) <= Count(c, b) + d
  }

  /** Giving one more to nodes that have no more than the others keeps every spread of at least 1. */
  lemma LeastFirst(c: Counters, ids: seq<NodeId>, chosen: seq<NodeId>, d: nat)
    requires Distinct(chosen) && d >= 1 && Within(c, ids, d)
    requires forall a, b :: a in chosen && b in ids && b !in chosen ==> Before(c, a, b)
    ensures Within(BumpAll(c, chosen), ids, d)
  {
    BumpDistinct(c, chosen);
    var c' := BumpAll(c, chosen);
    forall a, b | a in ids && b in ids ensures Count(c', a) <= Count(c', b) + d {
      assert a in chosen && b !in chosen ==> Before(c, a, b);
      assert Count(c, a) <= Count(c, b) + d;
    }
  }

  lemma ReplicaPlacement(before: Plan, ids: seq<NodeId>, rf: nat, d: nat)
    requires Enough(ids, rf) && d >= 1 && Within(before.replicas, ids, d)
    ensures Within(Place(before, ids, rf).replicas, ids, d)
  {
    hide SortByLoad, Within;
    ChosenIsLeast(before.replicas, ids, rf);
    LeastFirst(before.replicas, ids, Chosen(before.replicas, ids, rf), d);
  }

  /** For any number of partitions and nodes, the replica counts of the alive nodes stay within the
      larger of 1 and their spread at the start. */
  lemma {:induction false} ReplicasStayBalanced(replicas: Counters, leaders: Counters, ids: seq<NodeId>,
                                                rf: nat, n: nat, d: nat)
    requires Enough(ids, rf) && d >= 1 && Within(replicas, ids, d)
    ensures Within(PlanFor(replicas, leaders, ids, rf, n).replicas, ids, d)
  {
    hide Within, Place, Enough;
    if n > 0 {
      ReplicasStayBalanced(replicas, leaders, ids, rf, n - 1, d);
      ReplicaPlacement(PlanFor(replicas, leaders, ids, rf, n - 1), ids, rf, d);
    }
  }

  lemma AllChosen(replicas: Counters, ids: seq<NodeId>)
    requires Enough(ids, |ids|)
    ensures forall id :: id in Chosen(replicas, ids, |ids|) <==> id in ids
  {
    SortKeepsMembers(replicas, ids);
    assert Chosen(replicas, ids, |ids|) == SortByLoad(replicas, ids);
  }

  lemma LeaderPlacement(before: Plan, ids: seq<NodeId>, d: nat)
    requires Enough(ids, |ids|) && d >= 1 && Within(before.leaders, ids, d)
    ensures Within(Place(before, ids, |ids|).leaders, ids, d)
  {
    hide SortByLoad, Within;
    ChosenIsLeast(before.replicas, ids, |ids|);
    AllChosen(before.replicas, ids);
    var chosen := Chosen(before.replicas, ids, |ids|);
    var leader := LeaderOf(before.leaders, chosen);
    LeaderIsLeast(before.leaders, chosen);
    LeastFirst(before.leaders, ids, [leader], d);
    assert BumpAll(before.leaders, [leader]) == Bump(before.leaders, leader) by {
      assert [leader][..0] == [];
    }
  }

  /** With every alive node a replica, the leader counts obey the same bound. */
  lemma {:induction false} LeadersStayBalanced(replicas: Counters, leaders: Counters, ids: seq<NodeId>, n: nat, d: nat)
    requires Enough(ids, |ids|) && d >= 1 && Within(leaders, ids, d)
    ensures Within(PlanFor(replicas, leaders, ids, |ids|, n).leaders, ids, d)
  {
    hide Within, Place, Enough;
    if n > 0 {
      LeadersStayBalanced(replicas, leaders, ids, n - 1, d);
      LeaderPlacement(PlanFor(replicas, leaders, ids, |ids|, n - 1), ids, d);
    }
  }
}
