/** The configuration of a topic in etcd: replica sets and in-sync sets, and the mutators that
    change them in place. */
module TopicMeta {
  import opened Log

  type NodeId = int

  datatype PartitionParams = PartitionParams(partitionId: int, leader: NodeId, replicas: seq<NodeId>, isr: seq<NodeId>)

  datatype TopicParams = TopicParams(name: string, desiredFactor: int, partitions: seq<PartitionParams>)

  datatype Mutation =
    | AddReplica(partitionId: int, node: NodeId)
    | MarkInSync(partitionId: int, node: NodeId)
    | RemoveNode(partitionId: int, node: NodeId)

  // --- removeInt64 ---

  function Without(s: seq<NodeId>, v: NodeId): seq<NodeId> {
    if s == [] then []
    else Without(s[..|s| - 1], v) + (if s[|s| - 1] == v then [] else [s[|s| - 1]])
  }

  /** removeInt64 filters in place: the kept ids are moved to the front of the same array. */
  method RemoveInt64(a: array<NodeId>, v: NodeId) returns (n: nat)
    modifies a
    ensures n <= a.Length && a[..n] == Without(old(a[..]), v)
  {
    n := 0;
    for i := 0 to a.Length
      invariant n <= i
      invariant a[..n] == Without(old(a[..])[..i], v)
      invariant a[i..] == old(a[..])[i..]
    {
      assert a[i] == a[i..][0] == old(a[..])[i];
      assert old(a[..])[..i + 1][..i] == old(a[..])[..i];
      var x := a[i];
      if x != v {
        a[n] := x;
        n := n + 1;
        assert a[..n] == a[..n - 1] + [x];
      }
      assert forall k :: i + 1 <= k < a.Length ==> a[k] == old(a[..])[k];
    }
    assert old(a[..])[..a.Length] == old(a[..]);
  }

  lemma {:induction false} WithoutMembers(s: seq<NodeId>, v: NodeId, x: NodeId)
    ensures x in Without(s, v) <==> x in s && x != v
  {
    if s != [] {
      WithoutMembers(s[..|s| - 1], v, x);
      assert s == s[..|s| - 1] + [s[|s| - 1]];
    }
  }

  /** The other ids stay as they are, in their order. */
  lemma {:induction false} WithoutSplits(s: seq<NodeId>, t: seq<NodeId>, v: NodeId)
    ensures Without(s + t, v) == Without(s, v) + Without(t, v)
    ensures v !in s ==> Without(s, v) == s
    ensures Without([v], v) == []
    decreases |s| + |t|
  {
    if t != [] {
      assert (s + t)[..|s + t| - 1] == s + t[..|t| - 1];
      WithoutSplits(s, t[..|t| - 1], v);
    } else {
      assert s + t == s;
      if s != [] {
        WithoutSplits(s[..|s| - 1], [], v);
        assert s == s[..|s| - 1] + [s[|s| - 1]];
      }
    }
  }

  predicate Distinct(s: seq<NodeId>) {
    forall i, j :: 0 <= i < j < |s| ==> s[i] != s[j]
  }

  lemma {:induction false} WithoutDistinct(s: seq<NodeId>, v: NodeId)
    requires Distinct(s)
    ensures Distinct(Without(s, v))
  {
    if s != [] {
      var front, last := s[..|s| - 1], s[|s| - 1];
      WithoutDistinct(front, v);
      WithoutMembers(front, v, last);
    }
  }

  // --- The mutators ---

  /** The first partition with this id, or the number of partitions when there is none. */
  function Find(ps: seq<PartitionParams>, partitionId: int): (i: nat)
    ensures i <= |ps|
    ensures i < |ps| ==> ps[i].partitionId == partitionId
    ensures forall j :: 0 <= j < i ==> ps[j].partitionId != partitionId
  {
    if ps == [] || ps[0].partitionId == partitionId then 0 else 1 + Find(ps[1..], partitionId)
  }

  /** What a mutator makes of one partition; None is an error. */
  function MutatePartition(m: Mutation, p: PartitionParams): Option<PartitionParams> {
    match m
    case AddReplica(_, n) => Some(if n in p.replicas then p else p.(replicas := p.replicas + [n]))
    case MarkInSync(_, n) =>
      if n !in p.replicas then None else Some(if n in p.isr then p else p.(isr := p.isr + [n]))
    case RemoveNode(_, n) => Some(p.(replicas := Without(p.replicas, n), isr := Without(p.isr, n)))
  }

  function Mutate(m: Mutation, ps: seq<PartitionParams>): Option<seq<PartitionParams>> {
    var i := Find(ps, m.partitionId);
    if i == |ps| then (if m.RemoveNode? then Some(ps) else None)
    else match MutatePartition(m, ps[i])
         case None => None
         case Some(p) => Some(ps[i := p])
  }

  /** Partition i is the first one with this id. */
  predicate First(ps: seq<PartitionParams>, partitionId: int, i: nat) {
    i < |ps| && ps[i].partitionId == partitionId && forall j :: 0 <= j < i ==> ps[j].partitionId != partitionId
  }

  /** An assignment puts the node at the end of the replicas, once. */
  ghost predicate Assigned(p: PartitionParams, p': PartitionParams, n: NodeId) {
    && p'.replicas == (if n in p.replicas then p.replicas else p.replicas + [n])
    && p'.isr == p.isr
  }

  /** A replica is put at the end of the in-sync set, once. */
  ghost predicate Marked(p: PartitionParams, p': PartitionParams, n: NodeId) {
    && p'.isr == (if n in p.isr then p.isr else p.isr + [n])
    && p'.replicas == p.replicas
  }

  /** A removal takes the node out of both sets, and nobody else. */
  ghost predicate Removed(p: PartitionParams, p': PartitionParams, n: NodeId) {
    && (forall x :: x in p'.replicas <==> x in p.replicas && x != n)
    && (forall x :: x in p'.isr <==> x in p.isr && x != n)
  }

  /** What a mutator does to the partitions of a topic: an error changes nothing, and otherwise only the
      first partition with the id changes, and of it neither id nor leader. It is an error not to find the
      partition, except for a removal, and to mark a node that is no replica. */
  ghost predicate Mutated(m: Mutation, ps: seq<PartitionParams>, ps': seq<PartitionParams>, ok: bool) {
    && |ps'| == |ps| && (!ok ==> ps' == ps)
    && ((forall i :: 0 <= i < |ps| ==> ps[i].partitionId != m.partitionId) ==> ps' == ps && ok == m.RemoveNode?)
    && forall i: nat :: First(ps, m.partitionId, i) ==>
         && (forall j :: 0 <= j < |ps| && j != i ==> ps'[j] == ps[j])
         && ps'[i].partitionId == ps[i].partitionId && ps'[i].leader == ps[i].leader
         && (m.AddReplica? ==> ok && Assigned(ps[i], ps'[i], m.node))
         && (m.MarkInSync? ==> (ok <==> m.node in ps[i].replicas))
         && (m.MarkInSync? && ok ==> Marked(ps[i], ps'[i], m.node))
         && (m.RemoveNode? ==> ok && Removed(ps[i], ps'[i], m.node))
  }

  lemma MutatePartitionMeans(m: Mutation, p: PartitionParams)
    ensures MutatePartition(m, p).None? <==> m.MarkInSync? && m.node !in p.replicas
    ensures MutatePartition(m, p).Some? ==>
              var p' := MutatePartition(m, p).value;
              && p'.partitionId == p.partitionId && p'.leader == p.leader
              && (m.AddReplica? ==> Assigned(p, p', m.node))
              && (m.MarkInSync? ==> Marked(p, p', m.node))
              && (m.RemoveNode? ==> Removed(p, p', m.node))
  {
    if m.RemoveNode? {
      forall x
        ensures x in Without(p.replicas, m.node) <==> x in p.replicas && x != m.node
        ensures x in Without(p.isr, m.node) <==> x in p.isr && x != m.node
      {
        WithoutMembers(p.replicas, m.node, x);
        WithoutMembers(p.isr, m.node, x);
      }
    }
  }

  lemma MutateMeans(m: Mutation, ps: seq<PartitionParams>)
    ensures Mutated(m, ps, if Mutate(m, ps).Some? then Mutate(m, ps).value else ps, Mutate(m, ps).Some?)
  {
    hide MutatePartition, Assigned, Marked, Removed;
    var k := Find(ps, m.partitionId);
    forall i: nat | First(ps, m.partitionId, i) ensures i == k {
      FindFirst(ps, m.partitionId, i);
    }
    if k < |ps| {
      MutatePartitionMeans(m, ps[k]);
    }
  }

  method Contains(ids: seq<NodeId>, node: NodeId) returns (found: bool)
    ensures found <==> node in ids
  {
    for i := 0 to |ids|
      invariant node !in ids[..i]
    {
      if ids[i] == node {
        return true;
      }
    }
    assert ids[..|ids|] == ids;
    return false;
  }

  method Filter(ids: seq<NodeId>, node: NodeId) returns (kept: seq<NodeId>)
    ensures kept == Without(ids, node)
  {
    var a := new NodeId[|ids|](i requires 0 <= i < |ids| => ids[i]);
    assert a[..] == ids;
    var n := RemoveInt64(a, node);
    return a[..n];
  }

  /** The body of a mutator: the first partition with the id is changed in place. */
  method MutateInPlace(m: Mutation, ps: array<PartitionParams>) returns (ok: bool)
    modifies ps
    ensures ok <==> Mutate(m, old(ps[..])).Some?
    ensures ps[..] == if ok then Mutate(m, old(ps[..])).value else old(ps[..])
    ensures Mutated(m, old(ps[..]), ps[..], ok)
  {
    ghost var before := ps[..];
    MutateMeans(m, before);
    hide Mutated;
    for i := 0 to ps.Length
      invariant ps[..] == before
      invariant forall j :: 0 <= j < i ==> before[j].partitionId != m.partitionId
    {
      if ps[i].partitionId != m.partitionId {
        continue;
      }
      assert Find(before, m.partitionId) == i by {
        FindFirst(before, m.partitionId, i);
      }
      match m {
        case AddReplica(_, n) =>
          var isReplica := Contains(ps[i].replicas, n);
          if isReplica {
            return true;
          }
          ps[i] := ps[i].(replicas := ps[i].replicas + [n]);
        case MarkInSync(_, n) =>
          var isReplica := Contains(ps[i].replicas, n);
          if !isReplica {
            return false;
          }
          var isInSync := Contains(ps[i].isr, n);
          if isInSync {
            return true;
          }
          ps[i] := ps[i].(isr := ps[i].isr + [n]);
        case RemoveNode(_, n) =>
          var replicas := Filter(ps[i].replicas, n);
          var isr := Filter(ps[i].isr, n);
          ps[i] := ps[i].(replicas := replicas, isr := isr);
      }
      assert ps[..] == before[i := ps[i]];
      return true;
    }
    assert Find(before, m.partitionId) == |before| by {
      FindFirst(before, m.partitionId, |before|);
    }
    return m.RemoveNode?;
  }

  lemma FindFirst(ps: seq<PartitionParams>, partitionId: int, i: nat)
    requires i <= |ps| && (i < |ps| ==> ps[i].partitionId == partitionId)
    requires forall j :: 0 <= j < i ==> ps[j].partitionId != partitionId
    ensures Find(ps, partitionId) == i
  {
    var k := Find(ps, partitionId);
    assert k < |ps| ==> ps[k].partitionId == partitionId;
  }

  // --- What every mutator keeps ---

  predicate SoundPartition(p: PartitionParams) {
    Distinct(p.replicas) && Distinct(p.isr) && forall n :: n in p.isr ==> n in p.replicas
  }

  /** Replica sets have no duplicates, and only replicas are in sync. */
  ghost predicate Sound(ps: seq<PartitionParams>) {
    forall k :: 0 <= k < |ps| ==> SoundPartition(ps[k])
  }

  lemma MutatePartitionSound(m: Mutation, p: PartitionParams)
    requires SoundPartition(p) && MutatePartition(m, p).Some?
    ensures SoundPartition(MutatePartition(m, p).value)
  {
    if m.RemoveNode? {
      WithoutDistinct(p.replicas, m.node);
      WithoutDistinct(p.isr, m.node);
      var p' := MutatePartition(m, p).value;
      forall n | n in p'.isr ensures n in p'.replicas {
        WithoutMembers(p.isr, m.node, n);
        WithoutMembers(p.replicas, m.node, n);
      }
    }
  }

  lemma MutateSound(m: Mutation, ps: seq<PartitionParams>)
    requires Sound(ps) && Mutate(m, ps).Some?
    ensures Sound(Mutate(m, ps).value) && |Mutate(m, ps).value| == |ps|
  {
    var i := Find(ps, m.partitionId);
    if i < |ps| {
      MutatePartitionSound(m, ps[i]);
    }
  }

  /** Only an assignment brings a node into a replica set, and a removal takes it out of both sets. */
  lemma OnlyAddAssigns(m: Mutation, ps: seq<PartitionParams>, k: nat, node: NodeId)
    requires Mutate(m, ps).Some? && k < |ps| && node !in ps[k].replicas
    requires m != AddReplica(ps[k].partitionId, node)
    ensures |Mutate(m, ps).value| == |ps| && Mutate(m, ps).value[k].partitionId == ps[k].partitionId
    ensures node !in Mutate(m, ps).value[k].replicas
  {
    if m.RemoveNode? {
      WithoutMembers(ps[k].replicas, m.node, node);
    }
  }

  lemma RemoveTakesOut(m: Mutation, ps: seq<PartitionParams>)
    requires m.RemoveNode? && Find(ps, m.partitionId) < |ps|
    ensures var p := Mutate(m, ps).value[Find(ps, m.partitionId)];
            m.node !in p.replicas && m.node !in p.isr
  {
    var p := ps[Find(ps, m.partitionId)];
    WithoutMembers(p.replicas, m.node, m.node);
    WithoutMembers(p.isr, m.node, m.node);
  }
}
