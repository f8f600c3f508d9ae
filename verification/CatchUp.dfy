/** CatchUpPartition: a replica fetches its missing records from the leader, batch by batch. */
module CatchUp {
  import opened Log
  import opened Codec
  import opened SegmentFile
  import opened SegmentChain
  import opened Partition

  const NO_FAULTS: AppendFaults := AppendFaults(false, NoWriteFault)

  /** How many fetches bring a replica from offset `n` to the high watermark `hw`. */
  function RoundsNeeded(n: nat, hw: nat): nat {
    if hw <= n then 1 else (hw - n + BATCH_SIZE - 1) / BATCH_SIZE
  }

  /** The least number of fetches of 500 records that is enough, and one at least. */
  lemma RoundsAreEnough(n: nat, hw: nat)
    ensures var rounds := RoundsNeeded(n, hw);
            1 <= rounds && hw <= n + rounds * 500 && (rounds > 1 ==> n + (rounds - 1) * 500 < hw)
  {
  }

  lemma BatchSize<T>(l: Log<T>, n: nat)
    ensures |Batch(l, n, BATCH_SIZE)| == if n < l.base || l.Next() <= n then 0
                                         else if n + BATCH_SIZE < l.Next() then BATCH_SIZE else l.Next() - n
  {
  }

  /** Where a replica that needs offset `n` next stands after k rounds against a log that does not change. */
  function AfterRounds<T>(l: Log<T>, n: nat, k: nat): nat {
    if k == 0 then n
    else var m := AfterRounds(l, n, k - 1); m + |Batch(l, m, BATCH_SIZE)|
  }

  lemma {:induction false} RoundsAdvance<T>(l: Log<T>, n: nat, k: nat)
    ensures n < l.base ==> AfterRounds(l, n, k) == n
    ensures l.base <= n < l.Next() ==> AfterRounds(l, n, k) == if n + k * BATCH_SIZE < l.Next() then n + k * BATCH_SIZE
                                                               else l.Next()
    ensures l.Next() <= n ==> AfterRounds(l, n, k) == n
  {
    if k > 0 {
      RoundsAdvance(l, n, k - 1);
      BatchSize(l, AfterRounds(l, n, k - 1));
    }
  }

  /** Catch-up against a log that does not change reaches its end after some number of rounds, if and only
      if the leader still has the record that the replica needs next. */
  lemma CatchUpEndsIff<T>(l: Log<T>, n: nat)
    ensures (exists k: nat :: AfterRounds(l, n, k) >= l.Next()) <==> l.base <= n
  {
    if l.base <= n {
      RoundsAdvance(l, n, l.Next());
      assert AfterRounds(l, n, l.Next()) >= l.Next();
    } else {
      forall k: nat ensures AfterRounds(l, n, k) < l.Next() {
        RoundsAdvance(l, n, k);
      }
    }
  }

  /** A record of a valid partition is one that an append stores unchanged. */
  lemma StoredRecordsAreEncodable(p: PartitionProcessor, k: nat)
    requires p.Valid() && k < |p.recs|
    ensures Encodable(p.recs[k]) && p.recs[k].offset == p.baseOffset + k
  {
    hide EncodeAll;
    var segs, parts := p.Segments(), Parts(p.Segments());
    var i := OwnerExists(parts, p.View(), p.baseOffset + k, 0);
    assert PartOf(segs[i]) == parts[i];
    ValidSegment(segs[i]);
    RecordOfPart(parts, p.View(), i, p.baseOffset + k);
    assert AllEncodable(segs[i].msgs);
  }

  lemma AppendsUnchanged(m: Message, size: nat)
    requires Encodable(m)
    ensures IsInt64(m.timestamp)
    ensures AppendSucceeds(size, m.offset, m.timestamp, m.payload, NO_FAULTS)
    ensures Stored(m.offset, m.timestamp, m.payload) == m
  {
    PlainAppend(size, m.offset, m.timestamp, m.payload, NO_FAULTS);
  }

  lemma OffsetsEnd(p: PartitionProcessor)
    requires p.Valid()
    ensures p.nextOffset == p.View().Next() < TWO_TO_THE_64
  {
  }

  /** The records of a batch, one AppendEntry each. */
  method ApplyBatch(replica: PartitionProcessor, entries: seq<Message>)
    requires replica.Valid() && replica.state == PartitionActive
    requires forall i :: 0 <= i < |entries| ==> Encodable(entries[i]) && entries[i].offset == replica.nextOffset + i
    requires replica.nextOffset + |entries| < TWO_TO_THE_64
    modifies replica, replica.activeSegment
    ensures replica.Valid() && replica.state == PartitionActive && replica.syncState == old(replica.syncState)
    ensures replica.activeSegment == old(replica.activeSegment) || fresh(replica.activeSegment)
    ensures replica.View() == Log(old(replica.baseOffset), old(replica.recs) + entries)
  {
    hide PartitionProcessor.Valid, PartitionProcessor.Sized, PartitionProcessor.Disk, PartitionProcessor.Rotated,
         PartitionProcessor.Snapshot, PartitionProcessor.LastIsActive, Recovers, AfterAttempt, Opens, OnDisk,
         Encodable, AppendSucceeds, FailsCleanly, Stored;
    OffsetsEnd(replica);
    for i := 0 to |entries|
      invariant replica.Valid() && replica.state == PartitionActive && replica.syncState == old(replica.syncState)
      invariant replica.activeSegment == old(replica.activeSegment) || fresh(replica.activeSegment)
      invariant replica.baseOffset == old(replica.baseOffset) && replica.recs == old(replica.recs) + entries[..i]
      invariant replica.nextOffset == old(replica.nextOffset) + i
    {
      AppendsUnchanged(entries[i], replica.activeSegment.CurrentSize);
      var r := replica.AppendEntry(entries[i].offset, entries[i].timestamp, entries[i].payload, NO_FAULTS);
      OffsetsEnd(replica);
      assert entries[..i + 1] == entries[..i] + [entries[i]];
    }
    assert entries[..|entries|] == entries;
  }

  /** One round: fetch a batch from the replica's next offset, apply it, try to finish. */
  method CatchUpRound(leader: PartitionProcessor, replica: PartitionProcessor) returns (done: bool)
    requires leader.Valid() && replica.Valid() && leader != replica
    requires replica.activeSegment !in leader.Segments() && replica.state == PartitionActive
    modifies replica, replica.activeSegment
    ensures leader.Valid() && replica.Valid() && replica.state == PartitionActive
    ensures replica.activeSegment == old(replica.activeSegment) || fresh(replica.activeSegment)
    ensures replica.View() == Log(old(replica.baseOffset),
                                  old(replica.recs) + Batch(leader.View(), old(replica.nextOffset), BATCH_SIZE))
    ensures done <==> replica.nextOffset >= leader.nextOffset
    ensures replica.syncState == if done then StateInSync else old(replica.syncState)
  {
    hide Chain, AllValid, Encodable, Segment.Valid, Batch;
    var entries, highWatermark := leader.ReadBatch(replica.nextOffset, BATCH_SIZE);
    OffsetsEnd(leader);
    OffsetsEnd(replica);
    forall i | 0 <= i < |entries|
      ensures Encodable(entries[i]) && entries[i].offset == replica.nextOffset + i
    {
      StoredRecordsAreEncodable(leader, replica.nextOffset + i - leader.baseOffset);
    }
    ApplyBatch(replica, entries);
    done := replica.TryFinalizeInSync(highWatermark);
  }

  /** The records from n on and before `next`, none if the log ends before n. */
  function Between<T>(l: Log<T>, n: nat, next: nat): seq<T>
    requires l.base <= n <= next && (n < l.Next() ==> next <= l.Next())
  {
    if n < l.Next() then Slice(l, n, next) else []
  }

  lemma BatchExtends<T>(l: Log<T>, n: nat, before: nat)
    requires l.base <= n <= before && (n < l.Next() ==> before <= l.Next())
    ensures var batch := Batch(l, before, BATCH_SIZE);
            && (n < l.Next() ==> before + |batch| <= l.Next())
            && Between(l, n, before + |batch|) == Between(l, n, before) + batch
            && Between(l, n, n) == []
            && (before + |batch| < l.Next() ==> |batch| == BATCH_SIZE)
            && (before < l.Next() ==> 0 < |batch| <= BATCH_SIZE)
  {
  }

  lemma LastRound(n: nat, hw: nat, rounds: nat)
    requires rounds > 0 ==> n + rounds * BATCH_SIZE < hw
    requires n + (rounds + 1) * BATCH_SIZE >= hw
    ensures rounds + 1 == RoundsNeeded(n, hw)
  {
  }

  /** Against a leader that does not change and still holds the replica's next record, catch-up
      ends after exactly max(1, ceil((HW - n) / 500)) fetches, in sync, with every record of the
      leader from n on appended in order. A replica that is in sync already is left alone. */
  method CatchUpPartition(leader: PartitionProcessor, replica: PartitionProcessor) returns (rounds: nat)
    requires leader.Valid() && replica.Valid() && leader != replica
    requires replica.activeSegment !in leader.Segments() && replica.state == PartitionActive
    requires leader.baseOffset <= replica.nextOffset
    modifies replica, replica.activeSegment
    ensures leader.Valid() && replica.Valid() && replica.syncState == StateInSync
    ensures old(replica.syncState) == StateInSync ==> rounds == 0 && replica.View() == old(replica.View())
    ensures var n, hw := old(replica.nextOffset), leader.nextOffset;
            old(replica.syncState) != StateInSync ==>
              && rounds == RoundsNeeded(n, hw)
              && 1 <= rounds && hw <= n + rounds * 500 && (rounds > 1 ==> n + (rounds - 1) * 500 < hw)
              && replica.View() == Log(old(replica.baseOffset),
                                       old(replica.recs) + if n < hw then Slice(leader.View(), n, hw) else [])
  {
    hide PartitionProcessor.Valid, Batch, Slice, RoundsNeeded, Between;
    rounds := 0;
    OffsetsEnd(leader);
    OffsetsEnd(replica);
    if replica.syncState == StateInSync {
      return;
    }
    ghost var n, l := replica.nextOffset, leader.View();
    RoundsAreEnough(n, l.Next());
    var done := false;
    BatchExtends(l, n, n);
    while !done
      invariant leader.Valid() && replica.Valid() && replica.state == PartitionActive
      invariant leader.nextOffset == l.Next() && l.base <= n
      invariant replica.activeSegment == old(replica.activeSegment) || fresh(replica.activeSegment)
      invariant n <= replica.nextOffset && (n < l.Next() ==> replica.nextOffset <= l.Next())
      invariant replica.View() == Log(old(replica.baseOffset), old(replica.recs) + Between(l, n, replica.nextOffset))
      invariant done ==> replica.syncState == StateInSync && replica.nextOffset >= l.Next()
      invariant done ==> rounds == RoundsNeeded(n, l.Next())
      invariant !done ==> replica.nextOffset == n + rounds * BATCH_SIZE
                          && (rounds > 0 ==> replica.nextOffset < l.Next())
      decreases !done, l.Next() - replica.nextOffset
    {
      ghost var before := replica.nextOffset;
      OffsetsEnd(replica);
      BatchExtends(l, n, before);
      done := CatchUpRound(leader, replica);
      OffsetsEnd(leader);
      OffsetsEnd(replica);
      if done {
        LastRound(n, l.Next(), rounds);
      }
      rounds := rounds + 1;
    }
    AllBetween(l, n, replica.nextOffset);
  }

  lemma AllBetween<T>(l: Log<T>, n: nat, next: nat)
    requires l.base <= n <= next && (n < l.Next() ==> next == l.Next())
    ensures Between(l, n, next) == if n < l.Next() then Slice(l, n, l.Next()) else []
  {
  }

  /** The first `limit` rounds of the loop. Below the leader's base no number of rounds changes the
      replica, which stays replicating. */
  method CatchUpRounds(leader: PartitionProcessor, replica: PartitionProcessor, limit: nat) returns (ended: bool)
    requires leader.Valid() && replica.Valid() && leader != replica
    requires replica.activeSegment !in leader.Segments() && replica.state == PartitionActive
    modifies replica, replica.activeSegment
    ensures leader.Valid() && replica.Valid() && leader.View() == old(leader.View())
    ensures replica.nextOffset == AfterRounds(leader.View(), old(replica.nextOffset), limit)
    ensures ended <==> limit > 0 && leader.nextOffset <= replica.nextOffset
    ensures ended ==> replica.syncState == StateInSync
    ensures !ended ==> replica.syncState == old(replica.syncState)
    ensures old(replica.nextOffset) < leader.baseOffset ==> !ended && replica.View() == old(replica.View())
  {
    hide PartitionProcessor.Valid, Batch, Slice;
    OffsetsEnd(leader);
    OffsetsEnd(replica);
    ghost var n, l, v := replica.nextOffset, leader.View(), replica.View();
    ended := false;
    for k := 0 to limit
      invariant leader.Valid() && replica.Valid() && replica.state == PartitionActive && leader.View() == l
      invariant leader.nextOffset == l.Next() && replica.nextOffset == replica.View().Next() == AfterRounds(l, n, k)
      invariant replica.activeSegment == old(replica.activeSegment) || fresh(replica.activeSegment)
      invariant ended <==> k > 0 && l.Next() <= replica.nextOffset
      invariant ended ==> replica.syncState == StateInSync
      invariant !ended ==> replica.syncState == old(replica.syncState)
      invariant n < l.base ==> !ended && replica.View() == v
    {
      BatchSize(l, replica.nextOffset);
      if !ended {
        ended := CatchUpRound(leader, replica);
        OffsetsEnd(leader);
        OffsetsEnd(replica);
      }
    }
  }
}
