/** pickReplicaCandidate: which node the controller chooses for a partition that lacks a replica. */
module Candidate {
  import opened Assignment
  import opened Log
  import opened NodeLoad
  import opened TopicMeta

  /** What a node says it holds on disk. */
  datatype Report = Report(topic: string, partitionId: int, offset: nat)

  type Reports = map<NodeId, seq<Report>>

  /** What the controller knows when it chooses: the topics, unless they could not be read, what the
      nodes report, and the partition in question. */
  datatype Knowledge = Knowledge(topics: Option<seq<TopicParams>>, reports: Reports, topic: string, partitionId: int)

  function Eligible(members: set<NodeId>, replicas: seq<NodeId>): set<NodeId> {
    set id | id in members && id !in replicas
  }

  function ReportsOf(reports: Reports, id: NodeId): seq<Report> {
    if id in reports then reports[id] else []
  }

  predicate Matches(q: Knowledge, r: Report) {
    r.topic == q.topic && r.partitionId == q.partitionId
  }

  /** The node reports local data of the partition up to this offset. */
  ghost predicate Holds(q: Knowledge, id: NodeId, offset: nat) {
    exists r :: r in ReportsOf(q.reports, id) && Matches(q, r) && r.offset == offset
  }

  ghost predicate NobodyHolds(q: Knowledge, ids: set<NodeId>) {
    forall id, offset: nat :: id in ids ==> !Holds(q, id, offset)
  }

  /** Node `id` holds the partition up to `offset` and none of `ids` holds more. */
  ghost predicate MostHeld(q: Knowledge, ids: set<NodeId>, id: NodeId, offset: nat) {
    && id in ids && Holds(q, id, offset)
    && forall other, more: nat :: other in ids && Holds(q, other, more) ==> more <= offset
  }

  /** Node 0 holds more of the partition than any of `ids`. */
  ghost predicate ZeroHoldsMore(q: Knowledge, ids: set<NodeId>) {
    exists offset: nat :: Holds(q, 0, offset) && forall other, more: nat :: other in ids && Holds(q, other, more) ==> more < offset
  }

  /** In how many partitions the node takes part; 0 for all when the topics could not be read. */
  function Load(q: Knowledge, id: NodeId): nat {
    if q.topics.Some? then ReplicaLoad(q.topics.value, id) else 0
  }

  predicate Lighter(q: Knowledge, a: NodeId, b: NodeId) {
    Load(q, a) < Load(q, b) || (Load(q, a) == Load(q, b) && a < b)
  }

  ghost predicate LeastLoaded(q: Knowledge, ids: set<NodeId>, id: NodeId) {
    id in ids && forall other :: other in ids && other != id ==> Lighter(q, id, other)
  }

  /** The node of `others` that holds most of the partition, or the least loaded eligible node if none
      of `others` holds any of it. */
  ghost predicate PickedAmong(q: Knowledge, eligible: set<NodeId>, others: set<NodeId>, candidate: NodeId) {
    if NobodyHolds(q, others) then LeastLoaded(q, eligible, candidate)
    else exists offset: nat :: MostHeld(q, others, candidate, offset)
  }

  /** Node 0 has made the controller forget the nodes `dropped` and itself: 0 also stands for "none so
      far", so that finding node 0 to hold more than those is finding nobody yet. */
  ghost predicate PickedAfter(q: Knowledge, eligible: set<NodeId>, dropped: set<NodeId>, candidate: NodeId) {
    0 in eligible && ZeroHoldsMore(q, dropped) && PickedAmong(q, eligible, eligible - {0} - dropped, candidate)
  }

  /** The candidate: nobody if no node is eligible; else an eligible node that holds most of the
      partition, or the least loaded one when none holds any of it; or, if node 0 is eligible and holds
      some, what is found after the nodes that it has made the controller forget. The result 0 stands
      for "no node". */
  ghost predicate Picked(q: Knowledge, eligible: set<NodeId>, candidate: NodeId) {
    if eligible == {} then candidate == 0
    else
      || (NobodyHolds(q, eligible) && LeastLoaded(q, eligible, candidate))
      || (candidate != 0 && exists offset: nat :: MostHeld(q, eligible, candidate, offset))
      || (exists dropped: set<NodeId> :: dropped <= eligible - {0} && PickedAfter(q, eligible, dropped, candidate))
  }

  /** The best among the nodes `live`; the offset counts only if there is one. */
  ghost predicate BestOf(q: Knowledge, live: set<NodeId>, best: NodeId, offset: nat) {
    && 0 !in live
    && (best == 0 <==> NobodyHolds(q, live))
    && (best != 0 ==> MostHeld(q, live, best, offset))
  }

  /** The reports of one node in turn. For node 0 either nothing changes, or the best so far is forgotten. */
  method ScanReports(q: Knowledge, ghost live: set<NodeId>, id: NodeId, bestBefore: NodeId, offsetBefore: nat)
    returns (best: NodeId, offset: nat)
    requires id !in live && BestOf(q, live, bestBefore, offsetBefore)
    ensures id != 0 ==> BestOf(q, live + {id}, best, offset) && (bestBefore != 0 ==> offset >= offsetBefore)
    ensures id == 0 ==>
              || (best == bestBefore && offset == offsetBefore
                  && forall more: nat :: Holds(q, 0, more) ==> best != 0 && more <= offset)
              || (best == 0 && ZeroHoldsMore(q, live))
  {
    best, offset := bestBefore, offsetBefore;
    var entries := ReportsOf(q.reports, id);
    for k := 0 to |entries|
      invariant (forall j :: 0 <= j < k ==> !Improves(q, entries[j], bestBefore, offsetBefore)) ==>
                  best == bestBefore && offset == offsetBefore
      invariant (exists j :: 0 <= j < k && Improves(q, entries[j], bestBefore, offsetBefore)) ==>
                  && best == id && (id != 0 && bestBefore != 0 ==> offset > offsetBefore)
                  && (id != 0 ==> exists j :: 0 <= j < k && Matches(q, entries[j]) && entries[j].offset == offset)
                  && (id != 0 ==> forall j :: 0 <= j < k && Matches(q, entries[j]) ==> entries[j].offset <= offset)
    {
      if !Matches(q, entries[k]) {
        continue;
      }
      if best == 0 || entries[k].offset > offset {
        best, offset := id, entries[k].offset;
      }
    }
    if j :| 0 <= j < |entries| && Improves(q, entries[j], bestBefore, offsetBefore) {
      assert Holds(q, id, entries[j].offset);
      if id != 0 {
        var i :| 0 <= i < |entries| && Matches(q, entries[i]) && entries[i].offset == offset;
        assert Holds(q, id, offset);
        NewBest(q, live, id, bestBefore, offsetBefore, offset);
      }
    } else {
      assert forall more: nat :: Holds(q, id, more) ==> bestBefore != 0 && more <= offsetBefore;
      assert forall other, more: nat :: other in live + {id} && Holds(q, other, more) ==> bestBefore != 0 && more <= offsetBefore;
      assert forall other :: other in live ==> other in live + {id};
    }
  }

  /** The entry takes the place of the best so far. */
  predicate Improves(q: Knowledge, r: Report, best: NodeId, offset: nat) {
    Matches(q, r) && (best == 0 || r.offset > offset)
  }

  lemma NewBest(q: Knowledge, live: set<NodeId>, id: NodeId, bestBefore: NodeId, offsetBefore: nat, offset: nat)
    requires id !in live && id != 0 && BestOf(q, live, bestBefore, offsetBefore)
    requires Holds(q, id, offset) && forall more: nat :: Holds(q, id, more) ==> more <= offset
    requires bestBefore != 0 ==> offset > offsetBefore
    ensures BestOf(q, live + {id}, id, offset)
  {
    assert id in live + {id};
  }

  /** The scan has seen the eligible nodes `seen`: it remembers `live` and has forgotten `dropped`. */
  ghost predicate Scanned(q: Knowledge, seen: set<NodeId>, live: set<NodeId>, dropped: set<NodeId>, best: NodeId,
                          offset: nat)
  {
    && live !! dropped && live + dropped == seen - {0} && BestOf(q, live, best, offset)
    && ((dropped == {} && (0 in seen ==> forall more: nat :: Holds(q, 0, more) ==> best != 0 && more <= offset))
        || (0 in seen && ZeroHoldsMore(q, dropped)))
  }

  lemma ScannedOne(q: Knowledge, seen: set<NodeId>, live: set<NodeId>, dropped: set<NodeId>, id: NodeId,
                   best: NodeId, offset: nat, best': NodeId, offset': nat) returns (live': set<NodeId>, dropped': set<NodeId>)
    requires id !in seen && Scanned(q, seen, live, dropped, best, offset)
    requires id != 0 ==> BestOf(q, live + {id}, best', offset') && (best != 0 ==> offset' >= offset)
    requires id == 0 ==>
               || (best' == best && offset' == offset
                   && forall more: nat :: Holds(q, 0, more) ==> best != 0 && more <= offset)
               || (best' == 0 && ZeroHoldsMore(q, live))
    ensures Scanned(q, seen + {id}, live', dropped', best', offset')
  {
    live', dropped' := live, dropped;
    if id != 0 {
      live' := live + {id};
      assert best != 0 ==> best in live';
      assert best != 0 ==> best' != 0 by {
        if best != 0 {
          assert MostHeld(q, live, best, offset) && Holds(q, best, offset);
        }
      }
    } else if !(best' == best && offset' == offset
                && forall more: nat :: Holds(q, 0, more) ==> best != 0 && more <= offset) {
      assert dropped == {};
      live', dropped' := {}, live;
    }
  }

  lemma HolderIsPicked(q: Knowledge, eligible: set<NodeId>, live: set<NodeId>, dropped: set<NodeId>, best: NodeId,
                       offset: nat)
    requires Scanned(q, eligible, live, dropped, best, offset) && best != 0
    ensures Picked(q, eligible, best)
  {
    assert best in live && best in eligible;
    if dropped == {} && (0 in eligible ==> forall more: nat :: Holds(q, 0, more) ==> best != 0 && more <= offset) {
      forall other, more: nat | other in eligible && Holds(q, other, more) ensures more <= offset {
        assert other == 0 || other in live;
      }
      assert MostHeld(q, eligible, best, offset);
    } else {
      PickedWith(q, eligible, live, dropped, best);
    }
  }

  lemma PickedWith(q: Knowledge, eligible: set<NodeId>, live: set<NodeId>, dropped: set<NodeId>, candidate: NodeId)
    requires live + dropped == eligible - {0} && 0 in eligible && ZeroHoldsMore(q, dropped)
    requires PickedAmong(q, eligible, live, candidate) && dropped !! live
    ensures Picked(q, eligible, candidate)
  {
    assert eligible - {0} - dropped == live;
    assert PickedAfter(q, eligible, dropped, candidate);
  }

  lemma FallbackIsPicked(q: Knowledge, eligible: set<NodeId>, live: set<NodeId>, dropped: set<NodeId>, offset: nat,
                         candidate: NodeId)
    requires Scanned(q, eligible, live, dropped, 0, offset) && LeastLoaded(q, eligible, candidate)
    ensures Picked(q, eligible, candidate)
  {
    if dropped == {} && (0 in eligible ==> forall more: nat :: !Holds(q, 0, more)) {
      forall id, more: nat | id in eligible ensures !Holds(q, id, more) {
        assert id == 0 || id in live;
      }
    } else {
      PickedWith(q, eligible, live, dropped, candidate);
    }
  }

  ghost predicate Lists(ids: seq<NodeId>, s: set<NodeId>) {
    forall id :: id in ids <==> id in s
  }

  ghost predicate CountsLoads(q: Knowledge, load: Counters) {
    forall id :: Count(load, id) == Load(q, id)
  }

  lemma NothingCounted(q: Knowledge)
    ensures q.topics.None? ==> CountsLoads(q, map[])
  {
  }

  lemma ReplicasCounted(q: Knowledge, replicas: Counters, leaders: Counters)
    requires q.topics.Some? && CountsLoad(q.topics.value, replicas, leaders)
    ensures CountsLoads(q, replicas)
  {
  }

  /** The first of the sorted candidates is the least loaded one. */
  lemma FirstIsLeastLoaded(q: Knowledge, load: Counters, eligible: set<NodeId>, candidates: seq<NodeId>)
    requires CountsLoads(q, load) && Distinct(candidates) && Lists(candidates, eligible) && candidates != []
    ensures SortByLoad(load, candidates) != [] && LeastLoaded(q, eligible, SortByLoad(load, candidates)[0])
  {
    SortKeepsMembers(load, candidates);
    LeaderIsLeast(load, candidates);
  }

  lemma OneMoreEligible(members: set<NodeId>, rest: set<NodeId>, id: NodeId, exclude: seq<NodeId>, candidates: seq<NodeId>)
    requires id in rest && rest <= members
    requires Distinct(candidates) && Lists(candidates, Eligible(members - rest, exclude))
    ensures var seen, now := Eligible(members - rest, exclude), Eligible(members - (rest - {id}), exclude);
            && id !in seen && now == seen + (if id in exclude then {} else {id})
            && (id !in exclude ==> Distinct(candidates + [id]) && Lists(candidates + [id], now))
  {
  }

  lemma LiveIsSeen(q: Knowledge, seen: set<NodeId>, live: set<NodeId>, dropped: set<NodeId>, best: NodeId, offset: nat)
    requires Scanned(q, seen, live, dropped, best, offset)
    ensures live <= seen && BestOf(q, live, best, offset)
  {
    assert forall id :: id in live ==> id in live + dropped;
  }

  lemma NobodySeen(q: Knowledge, exclude: seq<NodeId>)
    ensures Eligible({}, exclude) == {} && Scanned(q, {}, {}, {}, 0, 0) && Lists([], {})
  {
  }

  lemma NoneListed(q: Knowledge, eligible: set<NodeId>)
    requires Lists([], eligible)
    ensures Picked(q, eligible, 0)
  {
    assert forall id :: id in eligible ==> id in [];
    assert eligible == {};
  }

  /** The members are gone through in any order. */
  method PickReplicaCandidate(q: Knowledge, members: set<NodeId>, exclude: seq<NodeId>) returns (candidate: NodeId)
    ensures Picked(q, Eligible(members, exclude), candidate)
  {
    hide SortByLoad, BestOf, Picked, NobodyHolds, ZeroHoldsMore, Holds, Eligible, CountsLoad, CountsLoads, LeastLoaded,
         MostHeld, Scanned, Lists;
    NothingCounted(q);
    NobodySeen(q, exclude);
    var partitionCount: Counters := map[];
    if q.topics.Some? {
      var leaderCount;
      partitionCount, leaderCount := ComputeNodeLoadFrom(q.topics.value);
      ReplicasCounted(q, partitionCount, leaderCount);
    }
    var best, offset: nat := 0, 0;
    var candidates: seq<NodeId> := [];
    var rest := members;
    ghost var live, dropped: set<NodeId> := {}, {};
    assert members - rest == {};
    while rest != {}
      invariant rest <= members
      invariant Distinct(candidates) && Lists(candidates, Eligible(members - rest, exclude))
      invariant Scanned(q, Eligible(members - rest, exclude), live, dropped, best, offset)
      decreases |rest|
    {
      SomeMember(rest);
      var id: NodeId :| id in rest;
      ghost var seen := Eligible(members - rest, exclude);
      OneMoreEligible(members, rest, id, exclude, candidates);
      rest := rest - {id};
      if id in exclude {
        continue;
      }
      candidates := candidates + [id];
      ghost var bestBefore, offsetBefore := best, offset;
      LiveIsSeen(q, seen, live, dropped, best, offset);
      best, offset := ScanReports(q, live, id, best, offset);
      live, dropped := ScannedOne(q, seen, live, dropped, id, bestBefore, offsetBefore, best, offset);
    }
    assert members - rest == members;
    if best != 0 {
      HolderIsPicked(q, Eligible(members, exclude), live, dropped, best, offset);
      return best;
    }
    if |candidates| == 0 {
      NoneListed(q, Eligible(members, exclude));
      return 0;
    }
    FirstIsLeastLoaded(q, partitionCount, Eligible(members, exclude), candidates);
    candidate := SortByLoad(partitionCount, candidates)[0];
    FallbackIsPicked(q, Eligible(members, exclude), live, dropped, offset, candidate);
  }

  /** When the controller finds no node although some are eligible: exactly when node 0 is the least loaded
      of them, and either nobody holds any of the partition or node 0 holds more than all others. */
  lemma NoCandidateIff(q: Knowledge, eligible: set<NodeId>)
    ensures Picked(q, eligible, 0) <==>
              eligible == {}
              || (LeastLoaded(q, eligible, 0) && (NobodyHolds(q, eligible) || ZeroHoldsMore(q, eligible - {0})))
  {
    if eligible != {} && Picked(q, eligible, 0) && !NobodyHolds(q, eligible) {
      var dropped: set<NodeId> :| dropped <= eligible - {0} && PickedAfter(q, eligible, dropped, 0);
      var offset: nat :| Holds(q, 0, offset)
                         && forall other, more: nat :: other in dropped && Holds(q, other, more) ==> more < offset;
      forall other, more: nat | other in eligible - {0} && Holds(q, other, more) ensures more < offset {
        assert other in dropped || other in eligible - {0} - dropped;
      }
    }
    if LeastLoaded(q, eligible, 0) && ZeroHoldsMore(q, eligible - {0}) {
      var rest := eligible - {0} - (eligible - {0});
      assert rest == {};
      assert PickedAfter(q, eligible, eligible - {0}, 0);
    }
  }

  /** A member that is picked is eligible, and one is picked if there is one and none has the id 0. */
  lemma PickedIsEligible(q: Knowledge, eligible: set<NodeId>, candidate: NodeId)
    requires Picked(q, eligible, candidate)
    ensures eligible == {} ==> candidate == 0
    ensures eligible != {} ==> candidate in eligible
  {
    if dropped: set<NodeId> :| dropped <= eligible - {0} && PickedAfter(q, eligible, dropped, candidate) {
      assert PickedAmong(q, eligible, eligible - {0} - dropped, candidate);
    }
  }

  /** The choice in terms of what the nodes report, when none has the id 0: a node that reports most of this
      partition of this topic, or, when nobody reports any of it, the node with the least load, the
      smaller id between equals. */
  lemma PickedMeans(q: Knowledge, eligible: set<NodeId>, candidate: NodeId)
    requires Picked(q, eligible, candidate) && eligible != {} && 0 !in eligible
    ensures candidate in eligible
    ensures forall id :: Load(q, id) == if q.topics.Some? then ReplicaLoad(q.topics.value, id) else 0
    ensures if exists id, r :: id in eligible && id in q.reports && r in q.reports[id]
                               && r.topic == q.topic && r.partitionId == q.partitionId
            then
              && candidate in q.reports
              && exists best :: best in q.reports[candidate] && best.topic == q.topic && best.partitionId == q.partitionId
                                && forall id, r :: id in eligible && id in q.reports && r in q.reports[id]
                                                   && r.topic == q.topic && r.partitionId == q.partitionId
                                                   ==> r.offset <= best.offset
            else
              forall other :: other in eligible && other != candidate ==>
                Load(q, candidate) < Load(q, other) || (Load(q, candidate) == Load(q, other) && candidate < other)
  {
    PickedIsEligible(q, eligible, candidate);
    forall id, r | id in eligible && id in q.reports && r in q.reports[id]
                   && r.topic == q.topic && r.partitionId == q.partitionId
      ensures Holds(q, id, r.offset)
    {
      assert r in ReportsOf(q.reports, id) && Matches(q, r);
    }
    if NobodyHolds(q, eligible) && LeastLoaded(q, eligible, candidate) {
      forall other | other in eligible && other != candidate
        ensures Load(q, candidate) < Load(q, other) || (Load(q, candidate) == Load(q, other) && candidate < other)
      {
        assert Lighter(q, candidate, other);
      }
    } else {
      var offset: nat :| MostHeld(q, eligible, candidate, offset);
      var best :| best in ReportsOf(q.reports, candidate) && Matches(q, best) && best.offset == offset;
      assert best in q.reports[candidate];
    }
  }
}
