/** ReplicateAndAppend on the leader: who is pushed to, when the in-sync followers are unanimous,
    and what happens to the record then. */
module Produce {
  import opened Log
  import opened Codec
  import opened SegmentChain
  import opened Partition

  datatype Replica = Replica(id: int, inSync: bool)

  datatype ProduceResult = Produced(offset: nat) | QuorumBroken | CommitFailed

  function PushTargets(replicas: seq<Replica>, leaderId: int, clients: set<int>): seq<int> {
    if replicas == [] then []
    else
      var last := replicas[|replicas| - 1];
      PushTargets(replicas[..|replicas| - 1], leaderId, clients)
      + (if last.id != leaderId && last.id in clients then [last.id] else [])
  }

  /** The replicas, in sync or not, to which a record is sent: all but the leader that can be reached. */
  method SelectTargets(replicas: seq<Replica>, leaderId: int, clients: set<int>) returns (pushed: seq<int>)
    ensures pushed == PushTargets(replicas, leaderId, clients)
  {
    pushed := [];
    for i := 0 to |replicas|
      invariant pushed == PushTargets(replicas[..i], leaderId, clients)
    {
      assert replicas[..i + 1][..i] == replicas[..i];
      var replica := replicas[i];
      if replica.id == leaderId || replica.id !in clients {
        continue;
      }
      pushed := pushed + [replica.id];
    }
    assert replicas[..|replicas|] == replicas;
  }

  lemma {:induction false} TargetsAreReplicas(replicas: seq<Replica>, leaderId: int, clients: set<int>, id: int)
    ensures id in PushTargets(replicas, leaderId, clients)
            <==> id != leaderId && id in clients && exists r :: r in replicas && r.id == id
  {
    if replicas != [] {
      var front, last := replicas[..|replicas| - 1], replicas[|replicas| - 1];
      TargetsAreReplicas(front, leaderId, clients, id);
      assert replicas == front + [last];
    }
  }

  /** The counters isrTotal and isrAcked agree exactly when every in-sync replica but the leader has acked. */
  method CountQuorum(replicas: seq<Replica>, leaderId: int, acked: set<int>)
    returns (isrTotal: nat, isrAcked: nat)
    ensures 1 <= isrAcked <= isrTotal
    ensures isrAcked == isrTotal <==> forall j :: 0 <= j < |replicas| && replicas[j].id != leaderId && replicas[j].inSync
                                                  ==> replicas[j].id in acked
  {
    isrTotal := 1;
    isrAcked := 1;
    for i := 0 to |replicas|
      invariant 1 <= isrAcked <= isrTotal
      invariant isrAcked == isrTotal <==> forall j :: 0 <= j < i && replicas[j].id != leaderId && replicas[j].inSync
                                                      ==> replicas[j].id in acked
    {
      var replica := replicas[i];
      if replica.id == leaderId || !replica.inSync {
        continue;
      }
      isrTotal := isrTotal + 1;
      if replica.id in acked {
        isrAcked := isrAcked + 1;
      }
    }
  }

  /** The end of one produce call, once the pushes for `target` have been answered or timed out.
      Without unanimity nothing is written and nothing is rolled back; with it the leader commits,
      and if that fails every replica that was sent the record is told to take it back. The replica
      sets are those that the call read when it began; the partition may have moved on since. */
  method FinishProduce(p: PartitionProcessor, replicas: seq<Replica>, leaderId: int, clients: set<int>,
                       acked: set<int>, target: nat, timestamp: int, payload: seq<Byte>, faults: AppendFaults)
    returns (result: ProduceResult, invalidated: seq<int>)
    requires p.Valid() && p.nextOffset <= LAST_OFFSET && IsInt64(timestamp)
    modifies p, p.activeSegment
    ensures result.QuorumBroken? <==> exists j :: 0 <= j < |replicas| && replicas[j].id != leaderId
                                                  && replicas[j].inSync && replicas[j].id !in acked
    ensures result.QuorumBroken? ==> p.View() == old(p.View()) && p.Valid()
    ensures var size := old(p.activeSegment.CurrentSize);
            result.Produced? <==>
              && !result.QuorumBroken? && p.state == PartitionActive
              && (target < old(p.nextOffset)
                  || (target == old(p.nextOffset) && AppendSucceeds(size, target, timestamp, payload, faults)))
    ensures result.Produced? ==> result.offset == target && p.Valid()
    ensures p.baseOffset == old(p.baseOffset)
    ensures p.recs == if result.Produced? && target == old(p.nextOffset)
                      then old(p.recs) + [Stored(target, timestamp, payload)] else old(p.recs)
    ensures p.nextOffset == p.baseOffset + |p.recs|
    ensures p.state == old(p.state)
    ensures var size := old(p.activeSegment.CurrentSize);
            Recovers(p.Disk(), if !result.QuorumBroken? && p.state == PartitionActive && target == old(p.nextOffset)
                               then AfterAttempt(old(p.Snapshot()), Stored(target, timestamp, payload),
                                                 Opens(size, faults.rotationFails),
                                                 OnDisk(size, target, timestamp, payload, faults))
                               else old(p.Snapshot()))
    ensures invalidated == if result.CommitFailed? then PushTargets(replicas, leaderId, clients) else []
  {
    hide PartitionProcessor.Valid, PartitionProcessor.Sized, PartitionProcessor.Disk, PartitionProcessor.Rotated,
         PartitionProcessor.LastIsActive, Recovers, AfterAttempt, Opens, OnDisk, AppendSucceeds, FailsCleanly, Stored;
    DiskOfValid(p);
    NextOfView(p);
    var pushed := SelectTargets(replicas, leaderId, clients);
    var isrTotal, isrAcked := CountQuorum(replicas, leaderId, acked);
    if isrAcked < isrTotal {
      return QuorumBroken, [];
    }
    var r := p.AppendEntry(target, timestamp, payload, faults);
    if !r.EntryOk? {
      return CommitFailed, pushed;
    }
    return Produced(r.offset), [];
  }
}
