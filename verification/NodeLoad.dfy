/** How loaded the nodes of a cluster are: counters per node, the order by load and node id that every
    placement decision uses, and the counters as the topic list defines them. */
module NodeLoad {
  import opened TopicMeta

  /** A counter map; a node that is not in it has count 0. */
  type Counters = map<NodeId, nat>

  function Count(c: Counters, id: NodeId): nat {
    if id in c then c[id] else 0
  }

  function Bump(c: Counters, id: NodeId): Counters {
    c[id := Count(c, id) + 1]
  }

  function BumpAll(c: Counters, ids: seq<NodeId>): Counters {
    if ids == [] then c else Bump(BumpAll(c, ids[..|ids| - 1]), ids[|ids| - 1])
  }

  method CountUp(c: Counters, ids: seq<NodeId>) returns (counts: Counters)
    ensures counts == BumpAll(c, ids)
  {
    counts := c;
    for k := 0 to |ids|
      invariant counts == BumpAll(c, ids[..k])
    {
      assert ids[..k + 1][..k] == ids[..k];
      counts := Bump(counts, ids[k]);
    }
    assert ids[..|ids|] == ids;
  }

  lemma {:induction false} BumpAllCounts(c: Counters, ids: seq<NodeId>, id: NodeId)
    ensures Count(BumpAll(c, ids), id) == Count(c, id) + multiset(ids)[id]
  {
    if ids != [] {
      BumpAllCounts(c, ids[..|ids| - 1], id);
      assert ids == ids[..|ids| - 1] + [ids[|ids| - 1]];
    }
  }

  lemma {:induction false} DistinctOnce(ids: seq<NodeId>, id: NodeId)
    requires Distinct(ids)
    ensures multiset(ids)[id] == if id in ids then 1 else 0
  {
    if ids != [] {
      DistinctOnce(ids[..|ids| - 1], id);
      assert ids == ids[..|ids| - 1] + [ids[|ids| - 1]];
    }
  }

  lemma BumpDistinct(c: Counters, ids: seq<NodeId>)
    requires Distinct(ids)
    ensures forall id :: Count(BumpAll(c, ids), id) == Count(c, id) + if id in ids then 1 else 0
  {
    forall id ensures Count(BumpAll(c, ids), id) == Count(c, id) + if id in ids then 1 else 0 {
      BumpAllCounts(c, ids, id);
      DistinctOnce(ids, id);
    }
  }

  // --- The order by load ---

  /** The comparison given to every sort: by count, and by id between equal counts. */
  predicate Before(c: Counters, a: NodeId, b: NodeId) {
    Count(c, a) < Count(c, b) || (Count(c, a) == Count(c, b) && a < b)
  }

  ghost predicate Ordered(c: Counters, ids: seq<NodeId>) {
    forall i, j :: 0 <= i < j < |ids| ==> Before(c, ids[i], ids[j])
  }

  function Insert(c: Counters, id: NodeId, ids: seq<NodeId>): seq<NodeId> {
    if ids == [] || Before(c, id, ids[0]) then [id] + ids else [ids[0]] + Insert(c, id, ids[1..])
  }

  /** What sort.Slice leaves; by OnlyOneOrder the algorithm that it uses does not matter. */
  function SortByLoad(c: Counters, ids: seq<NodeId>): seq<NodeId> {
    if ids == [] then [] else Insert(c, ids[0], SortByLoad(c, ids[1..]))
  }

  lemma PutFirst(c: Counters, id: NodeId, ids: seq<NodeId>)
    requires Ordered(c, ids) && forall x :: x in ids ==> Before(c, id, x)
    ensures Ordered(c, [id] + ids) && multiset([id] + ids) == multiset{id} + multiset(ids)
  {
    hide Before;
    forall i, j | 0 <= i < j < |[id] + ids| ensures Before(c, ([id] + ids)[i], ([id] + ids)[j]) {
      assert ids[j - 1] in ids;
    }
  }

  lemma BeforeAll(c: Counters, id: NodeId, ids: seq<NodeId>)
    requires Ordered(c, ids) && ids != [] && Before(c, id, ids[0])
    ensures forall x :: x in ids ==> Before(c, id, x)
  {
    forall x | x in ids ensures Before(c, id, x) {
      var j :| 0 <= j < |ids| && ids[j] == x;
      assert j > 0 ==> Before(c, ids[0], ids[j]);
    }
  }

  lemma {:induction false} InsertKeepsOrder(c: Counters, id: NodeId, ids: seq<NodeId>)
    requires Ordered(c, ids) && id !in ids
    ensures Ordered(c, Insert(c, id, ids))
    ensures multiset(Insert(c, id, ids)) == multiset{id} + multiset(ids)
  {
    assert ids != [] ==> Before(c, id, ids[0]) || Before(c, ids[0], id);
    hide Ordered, Before;
    if ids == [] || Before(c, id, ids[0]) {
      if ids != [] {
        BeforeAll(c, id, ids);
      }
      PutFirst(c, id, ids);
    } else {
      RestOrdered(c, ids);
      var rest := Insert(c, id, ids[1..]);
      InsertKeepsOrder(c, id, ids[1..]);
      forall x | x in rest ensures Before(c, ids[0], x) {
        assert x in multiset(rest);
        FirstIsLeast(c, ids, x);
      }
      PutFirst(c, ids[0], rest);
    }
  }

  lemma FirstIsLeast(c: Counters, ids: seq<NodeId>, x: NodeId)
    requires Ordered(c, ids) && ids != []
    ensures x in ids[1..] ==> Before(c, ids[0], x)
  {
    if x in ids[1..] {
      var j :| 1 <= j < |ids| && ids[j] == x;
    }
  }

  lemma {:induction false} SortIsOrdered(c: Counters, ids: seq<NodeId>)
    requires Distinct(ids)
    ensures Ordered(c, SortByLoad(c, ids)) && multiset(SortByLoad(c, ids)) == multiset(ids)
  {
    if ids != [] {
      var rest := SortByLoad(c, ids[1..]);
      SortIsOrdered(c, ids[1..]);
      assert ids == [ids[0]] + ids[1..];
      assert forall id :: id in rest ==> id in multiset(rest);
      InsertKeepsOrder(c, ids[0], rest);
    }
  }

  lemma SameFirst(c: Counters, c': Counters, s: seq<NodeId>, t: seq<NodeId>)
    requires Ordered(c, s) && Ordered(c', t) && multiset(s) == multiset(t) && s != [] && t != []
    requires forall id :: id in s ==> Count(c, id) == Count(c', id)
    ensures s[0] == t[0]
  {
    assert s[0] in multiset(s) && t[0] in multiset(t);
    var i :| 0 <= i < |s| && s[i] == t[0];
    var j :| 0 <= j < |t| && t[j] == s[0];
    assert i > 0 ==> Before(c, s[0], s[i]);
    assert j > 0 ==> Before(c', t[0], t[j]);
  }

  /** (load, id) is a total order on distinct ids: two lists of the same nodes that are both in order,
      under counters that agree, are the same list. */
  lemma {:induction false} OnlyOneOrder(c: Counters, c': Counters, s: seq<NodeId>, t: seq<NodeId>)
    requires Ordered(c, s) && Ordered(c', t) && multiset(s) == multiset(t)
    requires forall id :: id in s ==> Count(c, id) == Count(c', id)
    ensures s == t
  {
    assert |s| == |multiset(s)| == |multiset(t)| == |t|;
    if s != [] {
      SameFirst(c, c', s, t);
      hide Ordered;
      RestOrdered(c, s);
      RestOrdered(c', t);
      OnlyOneOrder(c, c', s[1..], t[1..]);
      assert s == [s[0]] + s[1..] && t == [t[0]] + t[1..];
    }
  }

  lemma RestOrdered(c: Counters, s: seq<NodeId>)
    requires Ordered(c, s) && s != []
    ensures Ordered(c, s[1..]) && multiset(s[1..]) == multiset(s) - multiset{s[0]}
  {
    assert s == [s[0]] + s[1..];
  }

  lemma SortIgnoresOrder(c: Counters, s: seq<NodeId>, t: seq<NodeId>)
    requires Distinct(s) && Distinct(t) && multiset(s) == multiset(t)
    ensures SortByLoad(c, s) == SortByLoad(c, t)
  {
    SortIsOrdered(c, s);
    SortIsOrdered(c, t);
    OnlyOneOrder(c, c, SortByLoad(c, s), SortByLoad(c, t));
  }

  lemma SortKeepsMembers(c: Counters, ids: seq<NodeId>)
    requires Distinct(ids)
    ensures |SortByLoad(c, ids)| == |ids| && Distinct(SortByLoad(c, ids))
    ensures forall id :: id in SortByLoad(c, ids) <==> id in ids
  {
    SortIsOrdered(c, ids);
    var s := SortByLoad(c, ids);
    assert |s| == |multiset(s)| == |ids|;
    forall i, j | 0 <= i < j < |s| ensures s[i] != s[j] {
      assert Before(c, s[i], s[j]);
    }
    forall id ensures id in s <==> id in ids {
      assert id in s <==> id in multiset(s);
    }
  }

  /** The sorted list has the same ids, by count, and by id between equal counts. */
  lemma SortMeans(c: Counters, ids: seq<NodeId>)
    requires Distinct(ids)
    ensures var s := SortByLoad(c, ids);
            && multiset(s) == multiset(ids)
            && forall i, j :: 0 <= i < j < |s| ==>
                 Count(c, s[i]) < Count(c, s[j]) || (Count(c, s[i]) == Count(c, s[j]) && s[i] < s[j])
  {
    SortIsOrdered(c, ids);
    forall i, j | 0 <= i < j < |SortByLoad(c, ids)|
      ensures Before(c, SortByLoad(c, ids)[i], SortByLoad(c, ids)[j])
    {
    }
  }

  /** sort.Slice on the list of node ids, in place. */
  method SortSlice(a: array<NodeId>, c: Counters)
    requires Distinct(a[..])
    modifies a
    ensures a[..] == SortByLoad(c, old(a[..]))
    ensures Ordered(c, a[..]) && multiset(a[..]) == multiset(old(a[..]))
  {
    ghost var before := a[..];
    SortIsOrdered(c, before);
    SortKeepsMembers(c, before);
    hide Ordered, SortByLoad, Distinct;
    var sorted := SortByLoad(c, a[..]);
    for i := 0 to a.Length
      invariant a[..i] == sorted[..i]
    {
      a[i] := sorted[i];
      assert a[..i + 1] == a[..i] + [sorted[i]];
    }
    assert a[..] == a[..a.Length] == sorted;
  }

  // --- The load that a list of topics defines ---

  function ReplicasOn(ps: seq<PartitionParams>, id: NodeId): nat {
    if ps == [] then 0 else ReplicasOn(ps[..|ps| - 1], id) + multiset(ps[|ps| - 1].replicas)[id]
  }

  function LedBy(ps: seq<PartitionParams>, id: NodeId): nat {
    if ps == [] then 0 else LedBy(ps[..|ps| - 1], id) + if ps[|ps| - 1].leader == id then 1 else 0
  }

  /** In how many partitions of the cluster the node takes part, in any role. */
  function ReplicaLoad(topics: seq<TopicParams>, id: NodeId): nat {
    if topics == [] then 0
    else ReplicaLoad(topics[..|topics| - 1], id) + ReplicasOn(topics[|topics| - 1].partitions, id)
  }

  /** How many partitions of the cluster the node leads. */
  function LeaderLoad(topics: seq<TopicParams>, id: NodeId): nat {
    if topics == [] then 0
    else LeaderLoad(topics[..|topics| - 1], id) + LedBy(topics[|topics| - 1].partitions, id)
  }

  ghost predicate CountsLoad(topics: seq<TopicParams>, replicas: Counters, leaders: Counters) {
    forall id {:trigger Count(replicas, id)} {:trigger Count(leaders, id)} ::
      Count(replicas, id) == ReplicaLoad(topics, id) && Count(leaders, id) == LeaderLoad(topics, id)
  }

  /** The counters in the middle of a topic: the topics before it and `ps` of its partitions are in. */
  ghost predicate CountsPart(topics: seq<TopicParams>, ps: seq<PartitionParams>, replicas: Counters, leaders: Counters) {
    forall id {:trigger Count(replicas, id)} {:trigger Count(leaders, id)} ::
      && Count(replicas, id) == ReplicaLoad(topics, id) + ReplicasOn(ps, id)
      && Count(leaders, id) == LeaderLoad(topics, id) + LedBy(ps, id)
  }

  lemma CountsNoPart(topics: seq<TopicParams>, replicas: Counters, leaders: Counters)
    requires CountsLoad(topics, replicas, leaders)
    ensures CountsPart(topics, [], replicas, leaders)
  {
    hide ReplicaLoad, LeaderLoad;
  }

  lemma CountPartition(topics: seq<TopicParams>, ps: seq<PartitionParams>, p: PartitionParams,
                       replicas: Counters, leaders: Counters)
    requires CountsPart(topics, ps, replicas, leaders)
    ensures CountsPart(topics, ps + [p], BumpAll(replicas, p.replicas), Bump(leaders, p.leader))
  {
    assert (ps + [p])[..|ps|] == ps;
    forall id
      ensures Count(BumpAll(replicas, p.replicas), id) == ReplicaLoad(topics, id) + ReplicasOn(ps + [p], id)
      ensures Count(Bump(leaders, p.leader), id) == LeaderLoad(topics, id) + LedBy(ps + [p], id)
    {
      BumpAllCounts(replicas, p.replicas, id);
      assert Count(leaders, id) == LeaderLoad(topics, id) + LedBy(ps, id);
    }
  }

  lemma CountTopic(topics: seq<TopicParams>, t: TopicParams, replicas: Counters, leaders: Counters)
    requires CountsPart(topics, t.partitions, replicas, leaders)
    ensures CountsLoad(topics + [t], replicas, leaders)
  {
    assert (topics + [t])[..|topics|] == topics;
  }

  // --- The load as a number of partitions ---

  /** The partitions, by topic and place, in which the node takes part. */
  function PartitionsOn(topics: seq<TopicParams>, id: NodeId): set<(nat, nat)> {
    set i: nat, k: nat | i < |topics| && k < |topics[i].partitions| && id in topics[i].partitions[k].replicas :: (i, k)
  }

  /** The partitions that the node leads. */
  function PartitionsLed(topics: seq<TopicParams>, id: NodeId): set<(nat, nat)> {
    set i: nat, k: nat | i < |topics| && k < |topics[i].partitions| && topics[i].partitions[k].leader == id :: (i, k)
  }

  function PlacesOn(ps: seq<PartitionParams>, i: nat, id: NodeId): set<(nat, nat)> {
    set k: nat | k < |ps| && id in ps[k].replicas :: (i, k)
  }

  function PlacesLed(ps: seq<PartitionParams>, i: nat, id: NodeId): set<(nat, nat)> {
    set k: nat | k < |ps| && ps[k].leader == id :: (i, k)
  }

  lemma OnePlaceMore(ps: seq<PartitionParams>, p: PartitionParams, i: nat, id: NodeId)
    ensures |PlacesOn(ps + [p], i, id)| == |PlacesOn(ps, i, id)| + if id in p.replicas then 1 else 0
  {
    var qs, n := ps + [p], |ps|;
    forall k: nat | k < |qs| ensures qs[k] == if k < n then ps[k] else p {
    }
    assert PlacesOn(qs, i, id) - {(i, n)} == PlacesOn(ps, i, id);
  }

  lemma OnePlaceMoreLed(ps: seq<PartitionParams>, p: PartitionParams, i: nat, id: NodeId)
    ensures |PlacesLed(ps + [p], i, id)| == |PlacesLed(ps, i, id)| + if p.leader == id then 1 else 0
  {
    var qs, n := ps + [p], |ps|;
    forall k: nat | k < |qs| ensures qs[k] == if k < n then ps[k] else p {
    }
    assert PlacesLed(qs, i, id) - {(i, n)} == PlacesLed(ps, i, id);
  }

  lemma {:induction false} PlacesCount(ps: seq<PartitionParams>, i: nat, id: NodeId)
    requires forall k :: 0 <= k < |ps| ==> Distinct(ps[k].replicas)
    ensures ReplicasOn(ps, id) == |PlacesOn(ps, i, id)| && LedBy(ps, id) == |PlacesLed(ps, i, id)|
  {
    if ps == [] {
      assert PlacesOn(ps, i, id) == {} && PlacesLed(ps, i, id) == {};
    } else {
      hide PlacesOn, PlacesLed, Distinct;
      var front, last := ps[..|ps| - 1], ps[|ps| - 1];
      PlacesCount(front, i, id);
      DistinctOnce(last.replicas, id);
      OnePlaceMore(front, last, i, id);
      OnePlaceMoreLed(front, last, i, id);
      assert front + [last] == ps;
    }
  }

  lemma OneTopicMore(topics: seq<TopicParams>, t: TopicParams, id: NodeId)
    ensures |PartitionsOn(topics + [t], id)| == |PartitionsOn(topics, id)| + |PlacesOn(t.partitions, |topics|, id)|
    ensures |PartitionsLed(topics + [t], id)| == |PartitionsLed(topics, id)| + |PlacesLed(t.partitions, |topics|, id)|
  {
    var all, n := topics + [t], |topics|;
    assert all[n] == t && forall i :: 0 <= i < n ==> all[i] == topics[i];
    assert PartitionsOn(all, id) == PartitionsOn(topics, id) + PlacesOn(t.partitions, n, id);
    assert PartitionsLed(all, id) == PartitionsLed(topics, id) + PlacesLed(t.partitions, n, id);
    assert PartitionsOn(topics, id) !! PlacesOn(t.partitions, n, id);
    assert PartitionsLed(topics, id) !! PlacesLed(t.partitions, n, id);
  }

  ghost predicate AllDistinct(topics: seq<TopicParams>) {
    forall i :: 0 <= i < |topics| ==> ReplicasDistinct(topics[i].partitions)
  }

  predicate ReplicasDistinct(ps: seq<PartitionParams>) {
    forall k :: 0 <= k < |ps| ==> Distinct(ps[k].replicas)
  }

  /** The load of a node is the number of partitions that it takes part in, and that it leads. */
  lemma {:induction false} LoadIsPartitions(topics: seq<TopicParams>, id: NodeId)
    requires AllDistinct(topics)
    ensures ReplicaLoad(topics, id) == |PartitionsOn(topics, id)| && LeaderLoad(topics, id) == |PartitionsLed(topics, id)|
  {
    if topics == [] {
      assert PartitionsOn(topics, id) == {} && PartitionsLed(topics, id) == {};
    } else {
      hide PartitionsOn, PartitionsLed, PlacesOn, PlacesLed, Distinct;
      var front, n, last := topics[..|topics| - 1], |topics| - 1, topics[|topics| - 1];
      LoadIsPartitions(front, id);
      PlacesCount(last.partitions, n, id);
      OneTopicMore(front, last, id);
      assert front + [last] == topics;
    }
  }

  method ComputeNodeLoadFrom(topics: seq<TopicParams>) returns (replicas: Counters, leaders: Counters)
    ensures CountsLoad(topics, replicas, leaders)
  {
    replicas, leaders := map[], map[];
    for i := 0 to |topics|
      invariant CountsLoad(topics[..i], replicas, leaders)
    {
      var ps := topics[i].partitions;
      for j := 0 to |ps|
        invariant CountsPart(topics[..i], ps[..j], replicas, leaders)
      {
        CountPartition(topics[..i], ps[..j], ps[j], replicas, leaders);
        assert ps[..j] + [ps[j]] == ps[..j + 1];
        replicas := CountUp(replicas, ps[j].replicas);
        leaders := Bump(leaders, ps[j].leader);
      }
      assert ps[..|ps|] == ps;
      CountTopic(topics[..i], topics[i], replicas, leaders);
      assert topics[..i] + [topics[i]] == topics[..i + 1];
    }
    assert topics[..|topics|] == topics;
  }
}
