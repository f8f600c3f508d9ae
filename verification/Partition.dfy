/** One partition of a topic: a chain of segment files that together hold one log.
    Each method is one critical section of the partition lock. */
module Partition {
  import opened Log
  import opened Codec
  import opened SegmentFile
  import opened FileNames
  import opened SegmentChain

  /** The last offset that can be written: the 64-bit counter must still be able to step past it. */
  const LAST_OFFSET: nat := TWO_TO_THE_64 - 2

  datatype SyncState = StateReplicating | StateInSync

  datatype PartitionState = PartitionActive | PartitionStopping | PartitionDeleted

  /** What the operating system does during one append: creating the next segment file may fail. */
  datatype AppendFaults = AppendFaults(rotationFails: bool, write: WriteFault)

  datatype AppendStatus = Appended | AppendFailed

  datatype EntryResult = EntryOk(offset: nat) | EntryStopped | EntryGap | EntryFailed

  datatype InvalidateResult = InvalidateOk | InvalidateStopped | InvalidateNotLast
                            | InvalidateInClosedSegment | InvalidateIoError

  /** The new segment file that the append needs cannot be created. */
  predicate RotationLost(activeSize: nat, faults: AppendFaults) {
    activeSize >= MAX_SEGMENT_SIZE && faults.rotationFails
  }

  /** The append opens a new segment file. */
  predicate Opens(activeSize: nat, rotationFails: bool) {
    activeSize >= MAX_SEGMENT_SIZE && !rotationFails
  }

  predicate AppendSucceeds(activeSize: nat, offset: nat, timestamp: int, payload: seq<Byte>, faults: AppendFaults)
    requires IsInt64(timestamp)
  {
    && !RotationLost(activeSize, faults)
    && BuildBuffer(offset, timestamp, payload).Some?
    && faults.write.NoWriteFault?
  }

  /** A failed append that leaves no bytes behind and no segment listed twice. */
  predicate FailsCleanly(activeSize: nat, offset: nat, timestamp: int, payload: seq<Byte>, faults: AppendFaults)
    requires IsInt64(timestamp)
  {
    && !RotationLost(activeSize, faults)
    && BytesLeft(BuildBuffer(offset, timestamp, payload), faults.write) == []
  }

  /** The bytes of the whole record are in the file, whether or not the append was reported as done. */
  predicate ReachesDisk(offset: nat, timestamp: int, payload: seq<Byte>, fault: WriteFault)
    requires IsInt64(timestamp)
  {
    var buf := BuildBuffer(offset, timestamp, payload);
    buf.Some? && BytesLeft(buf, fault) == buf.value
  }

  /** The whole record is on disk after one append, done or not. */
  predicate OnDisk(activeSize: nat, offset: nat, timestamp: int, payload: seq<Byte>, faults: AppendFaults)
    requires IsInt64(timestamp)
  {
    !RotationLost(activeSize, faults) && ReachesDisk(offset, timestamp, payload, faults.write)
  }

  /** A record of ordinary size is written as it is exactly when the file system does its part: it writes and
      syncs the record, and creates the next segment file if the active one is full. */
  lemma PlainAppend(activeSize: nat, offset: nat, timestamp: int, payload: seq<Byte>, faults: AppendFaults)
    requires offset < TWO_TO_THE_64 && IsInt64(timestamp) && |payload| + 20 < TWO_TO_THE_32
    ensures AppendSucceeds(activeSize, offset, timestamp, payload, faults) <==>
              faults.write.NoWriteFault? && (activeSize < MAX_SEGMENT_SIZE || !faults.rotationFails)
    ensures Stored(offset, timestamp, payload) == Message(offset, timestamp, payload)
  {
    hide BuildBuffer, StoredPayload;
    StoredUnchangedIff(offset, timestamp, payload);
  }

  /** What a restart gives after one append. */
  function AfterAttempt(before: Image, rec: Message, opens: bool, onDisk: bool): Image {
    Image(if onDisk then Log(before.log.base, before.log.recs + [rec]) else before.log, before.sized,
          onDisk || (before.lastActive && !opens))
  }

  /** What a restart gives after a rollback that has reached the disk; `left` are the records left in the segment. */
  function AfterCut(before: Image, target: nat, left: int): Image {
    Image(AfterInvalidate(before.log, target), before.sized, left > 0)
  }

  ghost predicate AllDifferent(segs: seq<Segment>) {
    forall i, j :: 0 <= i < j < |segs| ==> segs[i] != segs[j]
  }

  ghost predicate AllValid(segs: seq<Segment>)
    reads segs
  {
    && AllDifferent(segs)
    && (forall i :: 0 <= i < |segs| ==> segs[i].Valid())
  }

  ghost function PartOf(s: Segment): Part
    reads s
  {
    Part(s.BaseOffset, s.msgs)
  }

  ghost function Parts(segs: seq<Segment>): (parts: seq<Part>)
    reads segs
    ensures |parts| == |segs|
    ensures forall i :: 0 <= i < |segs| ==> parts[i] == PartOf(segs[i])
  {
    seq(|segs|, i requires 0 <= i < |segs| reads segs => PartOf(segs[i]))
  }

  /** The files of the segments, in chain order. */
  ghost function Files(segs: seq<Segment>): (files: seq<File>)
    reads segs
    ensures |files| == |segs|
    ensures forall i :: 0 <= i < |segs| ==> files[i] == File(FileName(segs[i].BaseOffset), segs[i].file)
  {
    seq(|segs|, i requires 0 <= i < |segs| reads segs => File(FileName(segs[i].BaseOffset), segs[i].file))
  }

  ghost predicate Reopened(segs: seq<Segment>, parts: seq<Part>)
    reads segs
  {
    AllValid(segs) && Parts(segs) == parts
  }

  ghost predicate OpenedFrom(s: Segment, f: File)
    reads s
  {
    && ParseName(f.name) == Some(s.BaseOffset)
    && forall ms :: HoldsRecords(s.BaseOffset, f.bytes, ms) ==> s.Valid() && s.msgs == ms
  }

  method KeepLogFiles(listing: seq<File>) returns (logFiles: seq<File>)
    ensures logFiles == LogFiles(listing)
  {
    logFiles := [];
    for i := 0 to |listing|
      invariant logFiles == LogFiles(listing[..i])
    {
      assert listing[..i + 1][..i] == listing[..i];
      if HasLogSuffix(listing[i].name) {
        logFiles := logFiles + [listing[i]];
      }
    }
    assert listing[..|listing|] == listing;
  }

  lemma EmptySort()
    ensures SortByName([]) == []
  {
  }

  /** Opens the segment files of a directory in name order; names that carry no offset are skipped. */
  method OpenSegments(listing: seq<File>) returns (segs: seq<Segment>)
    ensures forall s :: s in segs ==> fresh(s)
    ensures (forall f :: f in listing ==> !HasLogSuffix(f.name)) ==> segs == []
    ensures forall files, parts, l {:trigger FilesHold(files, parts), Chain(parts, l)} ::
              FilesHold(files, parts) && Chain(parts, l) && Lists(listing, files) ==> Reopened(segs, parts)
  {
    hide HoldsRecords, Segment.Valid, Chain, LogFiles, SortByName, ParseName, Lists, HasLogSuffix;
    if forall f :: f in listing ==> !HasLogSuffix(f.name) {
      NoLogFiles(listing);
    }
    var logFiles := KeepLogFiles(listing);
    assert logFiles == [] ==> SortByName(logFiles) == [] by {
      EmptySort();
    }
    logFiles := SortByName(logFiles);
    segs := [];
    ghost var sources := [];
    for i := 0 to |logFiles|
      invariant |sources| == |segs|
      invariant forall s :: s in segs ==> fresh(s)
      invariant forall j, k :: 0 <= j < k < |segs| ==> segs[j] != segs[k]
      invariant forall k :: 0 <= k < |segs| ==> OpenedFrom(segs[k], sources[k])
      invariant (forall k :: 0 <= k < i ==> ParseName(logFiles[k].name).Some?) ==> sources == logFiles[..i]
      invariant logFiles == [] ==> segs == []
    {
      var baseOffset := ParseName(logFiles[i].name);
      if baseOffset.Some? {
        var seg := new Segment(baseOffset.value, logFiles[i].bytes);
        assert OpenedFrom(seg, logFiles[i]);
        segs := segs + [seg];
        sources := sources + [logFiles[i]];
      }
    }
    forall files, parts, l {:trigger FilesHold(files, parts), Chain(parts, l)} |
        FilesHold(files, parts) && Chain(parts, l) && Lists(listing, files)
      ensures Reopened(segs, parts)
    {
      SortedListingIsChainOrder(listing, files, parts, l);
      assert sources == files;
      forall i | 0 <= i < |segs| ensures segs[i].Valid() && PartOf(segs[i]) == parts[i] {
        assert OpenedFrom(segs[i], files[i]);
      }
    }
  }

  class PartitionProcessor {
    var closedSegments: seq<Segment>
    var activeSegment: Segment
    var baseOffset: nat
    var nextOffset: nat
    var syncState: SyncState
    var state: PartitionState
    /** The records of the partition, first one at baseOffset. */
    ghost var recs: seq<Message>

    ghost function Segments(): seq<Segment>
      reads this
    {
      closedSegments + [activeSegment]
    }

    /** The log that the partition stores. */
    ghost function View(): Log<Message>
      reads this
    {
      Log(baseOffset, recs)
    }

    ghost predicate Valid()
      reads this, Segments()
    {
      && AllValid(Segments())
      && Chain(Parts(Segments()), View())
      && nextOffset == baseOffset + |recs|
    }

    /** The last record lies in the active segment, where a rollback can reach it. */
    ghost predicate LastIsActive()
      reads this, activeSegment
    {
      activeSegment.BaseOffset < activeSegment.NextOffset
    }

    /** Every closed segment has reached the size limit, and each segment did so with its last record. */
    ghost predicate Sized()
      reads this, Segments()
    {
      SizedParts(Parts(Segments()))
    }

    ghost function Snapshot(): Image
      reads this, Segments()
    {
      Image(View(), Sized(), LastIsActive())
    }

    /** The segment files on disk: an active segment that is listed as closed as well has one file. */
    ghost function Disk(): seq<File>
      reads this, closedSegments, Segments()
    {
      if closedSegments != [] && closedSegments[|closedSegments| - 1] == activeSegment then Files(closedSegments)
      else Files(Segments())
    }

    /** What an append at this offset does to the list of segments: a full active segment is closed,
        and the new one starts at the offset. */
    twostate predicate Rotated(offset: nat, rotationFails: bool)
      reads this, activeSegment
    {
      if old(activeSegment.CurrentSize) < MAX_SEGMENT_SIZE then
        closedSegments == old(closedSegments) && activeSegment == old(activeSegment)
      else
        && closedSegments == old(Segments())
        && (if rotationFails then activeSegment == old(activeSegment)
            else fresh(activeSegment) && activeSegment.BaseOffset == offset)
    }

    /** NewPartitionProcessor with recoverSegments: reopens every segment file of the directory, in
        name order; the last one becomes the active segment. */
    constructor (listing: seq<File>, startOffset: nat)
      ensures syncState == StateReplicating && state == PartitionActive
      ensures forall s :: s in Segments() ==> fresh(s)
      ensures forall files, image {:trigger Recovers(files, image)} ::
                Recovers(files, image) && Lists(listing, files) ==>
                  Valid() && View() == image.log && (image.sized ==> Sized()) && LastIsActive() == image.lastActive
      ensures (forall f :: f in listing ==> !HasLogSuffix(f.name)) && startOffset < TWO_TO_THE_64 ==>
                Valid() && View() == Log(startOffset, []) && Sized()
    {
      hide HoldsRecords, Segment.Valid, Chain, FilesHold, Lists, HasLogSuffix, Reopened, Joined, SizedParts;
      var segs := OpenSegments(listing);
      if |segs| > 0 {
        closedSegments := segs[..|segs| - 1];
        activeSegment := segs[|segs| - 1];
        nextOffset := segs[|segs| - 1].NextOffset;
        baseOffset := segs[0].BaseOffset;
        recs := Joined(Parts(segs));
      } else {
        closedSegments := [];
        var seg := new Segment(startOffset, []);
        activeSegment := seg;
        nextOffset := startOffset;
        baseOffset := startOffset;
        recs := [];
      }
      syncState := StateReplicating;
      state := PartitionActive;
      new;
      assert |segs| > 0 ==> Segments() == segs;
      assert |segs| == 0 ==> Segments() == [activeSegment];
      forall files, image {:trigger Recovers(files, image)} |
          Recovers(files, image) && Lists(listing, files)
        ensures Valid() && View() == image.log && (image.sized ==> Sized()) && LastIsActive() == image.lastActive
      {
        var parts :| FilesHold(files, parts) && IsImage(parts, image);
        ReopenedChain(segs, parts, image.log);
      }
      if segs == [] && startOffset < TWO_TO_THE_64 {
        EmptyFileHoldsNothing(startOffset);
        EmptyChain(startOffset);
        assert Parts(Segments()) == [Part(startOffset, [])];
      }
    }

    /** Writes one record at the end of the log, starting a new segment file first when the active
        one is full; the record then is the first of the new file. A failure leaves the log as it was,
        and the partition usable unless it left bytes behind or lost the new file; what is on disk
        recovers to the log as it was, or to it and the new record. */
    method AppendLocked(offset: nat, timestamp: int, payload: seq<Byte>, faults: AppendFaults)
      returns (status: AppendStatus)
      requires Valid() && offset == nextOffset <= LAST_OFFSET && IsInt64(timestamp)
      modifies this, activeSegment
      ensures state == old(state) && syncState == old(syncState) && baseOffset == old(baseOffset)
      ensures activeSegment == old(activeSegment) || fresh(activeSegment)
      ensures Rotated(offset, faults.rotationFails)
      ensures var size, rec := old(activeSegment.CurrentSize), Stored(offset, timestamp, payload);
              && (status.Appended? <==> AppendSucceeds(size, offset, timestamp, payload, faults))
              && recs == (if status.Appended? then old(recs) + [rec] else old(recs))
              && nextOffset == (if status.Appended? then offset + 1 else offset)
              && activeSegment.msgs == (if Opens(size, faults.rotationFails) then [] else old(activeSegment.msgs))
                                       + (if status.Appended? then [rec] else [])
              && (Valid() <==> status.Appended? || FailsCleanly(size, offset, timestamp, payload, faults))
              && (old(Sized()) && Valid() ==> Sized())
              && Recovers(Disk(), AfterAttempt(old(Snapshot()), rec, Opens(size, faults.rotationFails),
                                               OnDisk(size, offset, timestamp, payload, faults)))
    {
      hide BuildBuffer, Stored, BytesLeft, HoldsRecords, Recovers, PartitionProcessor.Valid, PartitionProcessor.Sized,
           PartitionProcessor.Disk, PartitionProcessor.LastIsActive;
      DiskOfValid(this);
      ghost var before := Snapshot();
      var rotated := RotateIfFull(offset, faults.rotationFails);
      if !rotated {
        return AppendFailed;
      }
      ghost var between := Snapshot();
      status := WriteRecord(offset, timestamp, payload, faults.write);
      ghost var onDisk := ReachesDisk(offset, timestamp, payload, faults.write);
      RecoversLess(Disk(), AfterAttempt(between, Stored(offset, timestamp, payload), false, onDisk), before.sized);
    }

    /** Writes one record to the active segment. */
    method WriteRecord(offset: nat, timestamp: int, payload: seq<Byte>, fault: WriteFault)
      returns (status: AppendStatus)
      requires Valid() && offset == nextOffset <= LAST_OFFSET && IsInt64(timestamp)
      requires activeSegment.CurrentSize < MAX_SEGMENT_SIZE
      modifies this`nextOffset, this`recs, activeSegment
      ensures var buf, rec := BuildBuffer(offset, timestamp, payload), Stored(offset, timestamp, payload);
              && (status.Appended? <==> buf.Some? && fault.NoWriteFault?)
              && recs == (if status.Appended? then old(recs) + [rec] else old(recs))
              && nextOffset == (if status.Appended? then offset + 1 else offset)
              && activeSegment.msgs == old(activeSegment.msgs) + (if status.Appended? then [rec] else [])
              && (Valid() <==> status.Appended? || BytesLeft(buf, fault) == [])
              && (old(Sized()) ==> Sized())
              && Recovers(Disk(), AfterAttempt(old(Snapshot()), rec, false,
                                               ReachesDisk(offset, timestamp, payload, fault)))
    {
      hide BuildBuffer, Stored, HoldsRecords, Chain, Segment.Valid, SizedParts, Recovers, PartitionProcessor.Disk,
           AfterAttempt, AllValid, PartitionProcessor.Valid, PartitionProcessor.Sized, AllDifferent,
           PartitionProcessor.LastIsActive, EncodeAll, AllEncodable, Files, BytesLeft;
      DiskOfValid(this);
      Unfold(this);
      ghost var l, segs, parts := View(), Segments(), Parts(Segments());
      ghost var before := Snapshot();
      Fold(this);
      ghost var rec := Stored(offset, timestamp, payload);
      BeforeWrite(segs, parts, l, offset, timestamp, payload);
      var r := activeSegment.Append(offset, timestamp, payload, fault);
      if r.Written? {
        nextOffset := nextOffset + 1;
        recs := recs + [rec];
        status := Appended;
      } else {
        status := AppendFailed;
      }
      ghost var buf := BuildBuffer(offset, timestamp, payload);
      BytesLeftMeans(buf, fault);
      DiskOfDistinct(this);
      OthersStay(segs);
      AfterWrite(segs, parts, l, rec, r.Written?, buf.Some? && BytesLeft(buf, fault) == buf.value, before.sized);
      Fold(this);
    }

    /** Starts a new, empty active segment when the current one has reached the size limit. When
        its file cannot be created, the full segment stays active and is listed as closed as well. */
    method RotateIfFull(offset: nat, rotationFails: bool) returns (ok: bool)
      requires Valid() && offset == nextOffset <= LAST_OFFSET
      modifies this`closedSegments, this`activeSegment
      ensures ok <==> !(old(activeSegment.CurrentSize) >= MAX_SEGMENT_SIZE && rotationFails)
      ensures ok <==> Valid()
      ensures activeSegment == old(activeSegment) || fresh(activeSegment)
      ensures Rotated(offset, rotationFails)
      ensures ok ==> activeSegment.CurrentSize < MAX_SEGMENT_SIZE
      ensures activeSegment.msgs
              == if Opens(old(activeSegment.CurrentSize), rotationFails) then [] else old(activeSegment.msgs)
      ensures Opens(old(activeSegment.CurrentSize), rotationFails) ==> !LastIsActive()
      ensures ok && old(Sized()) ==> Sized()
      ensures !ok ==> Recovers(Disk(), old(Snapshot()))
    {
      hide HoldsRecords, Chain, Segment.Valid, SizedParts, Recovers, PartitionProcessor.Disk, AllValid,
           PartitionProcessor.Valid, PartitionProcessor.Sized, AllDifferent;
      DiskOfValid(this);
      Unfold(this);
      Fold(this);
      if activeSegment.CurrentSize < MAX_SEGMENT_SIZE {
        return true;
      }
      ghost var segs, parts, before := Segments(), Parts(Segments()), Snapshot();
      closedSegments := closedSegments + [activeSegment];
      if rotationFails {
        ListedTwice(this);
        return false;
      }
      FullPart(segs, parts, View());
      activeSegment := new Segment(offset, []);
      EmptyFileHoldsNothing(offset);
      AddedSegment(segs, parts, View(), activeSegment, before.sized);
      Fold(this);
      return true;
    }

    /** AppendEntry: the leader's own commit and the catch-up writer. An offset already written is
        accepted and skipped; a gap is refused. */
    method AppendEntry(offset: nat, timestamp: int, payload: seq<Byte>, faults: AppendFaults)
      returns (r: EntryResult)
      requires Valid() && nextOffset <= LAST_OFFSET && IsInt64(timestamp)
      modifies this, activeSegment
      ensures state == old(state) && syncState == old(syncState) && baseOffset == old(baseOffset)
      ensures activeSegment == old(activeSegment) || fresh(activeSegment)
      ensures var size := old(activeSegment.CurrentSize);
              var writes := state == PartitionActive && offset == old(nextOffset);
              var succeeds := AppendSucceeds(size, offset, timestamp, payload, faults);
              && r == (if state != PartitionActive then EntryStopped
                       else if offset < old(nextOffset) || (writes && succeeds) then EntryOk(offset)
                       else if old(nextOffset) < offset then EntryGap
                       else EntryFailed)
              && recs == (if writes && succeeds then old(recs) + [Stored(offset, timestamp, payload)] else old(recs))
              && nextOffset == baseOffset + |recs|
              && (if writes then Rotated(offset, faults.rotationFails)
                  else closedSegments == old(closedSegments) && activeSegment == old(activeSegment))
              && activeSegment.msgs == (if writes && Opens(size, faults.rotationFails) then [] else old(activeSegment.msgs))
                                       + (if writes && succeeds then [Stored(offset, timestamp, payload)] else [])
              && (Valid() <==> !writes || succeeds || FailsCleanly(size, offset, timestamp, payload, faults))
              && (old(Sized()) && Valid() ==> Sized())
              && Recovers(Disk(), if writes
                                  then AfterAttempt(old(Snapshot()), Stored(offset, timestamp, payload),
                                                    Opens(size, faults.rotationFails),
                                                    OnDisk(size, offset, timestamp, payload, faults))
                                  else old(Snapshot()))
    {
      hide AppendSucceeds, FailsCleanly, RotationLost, OnDisk, Stored, Chain, AllValid, Recovers, Opens, SizedParts,
           AfterAttempt;
      DiskOfValid(this);
      if state != PartitionActive {
        return EntryStopped;
      }
      if offset < nextOffset {
        return EntryOk(offset);
      }
      if offset != nextOffset {
        return EntryGap;
      }
      var status := AppendLocked(offset, timestamp, payload, faults);
      return if status.Appended? then EntryOk(offset) else EntryFailed;
    }

    /** TryApplyPush: an in-sync replica takes the leader's record at its own next offset, and
        nothing else. There is no test of the partition's life cycle on this path. */
    method TryApplyPush(target: nat, timestamp: int, payload: seq<Byte>, faults: AppendFaults)
      returns (outcome: PushOutcome, matchOffset: nat)
      requires Valid() && nextOffset <= LAST_OFFSET && IsInt64(timestamp)
      modifies this, activeSegment
      ensures state == old(state) && syncState == old(syncState) && baseOffset == old(baseOffset)
      ensures activeSegment == old(activeSegment) || fresh(activeSegment)
      ensures var size := old(activeSegment.CurrentSize);
              var takes := syncState == StateInSync && target == old(nextOffset);
              var succeeds := AppendSucceeds(size, target, timestamp, payload, faults);
              && (outcome == PushRejectedNotInSync <==> syncState != StateInSync)
              && (outcome == PushAccepted <==> takes && succeeds)
              && matchOffset == (if outcome == PushAccepted then target else nextOffset)
              && recs == (if takes && succeeds then old(recs) + [Stored(target, timestamp, payload)] else old(recs))
              && nextOffset == baseOffset + |recs|
              && (if takes then Rotated(target, faults.rotationFails)
                  else closedSegments == old(closedSegments) && activeSegment == old(activeSegment))
              && activeSegment.msgs
                 == (if takes && Opens(size, faults.rotationFails) then [] else old(activeSegment.msgs))
                    + (if outcome == PushAccepted then [Stored(target, timestamp, payload)] else [])
              && (Valid() <==> !takes || succeeds || FailsCleanly(size, target, timestamp, payload, faults))
              && (old(Sized()) && Valid() ==> Sized())
              && Recovers(Disk(), if takes
                                  then AfterAttempt(old(Snapshot()), Stored(target, timestamp, payload),
                                                    Opens(size, faults.rotationFails),
                                                    OnDisk(size, target, timestamp, payload, faults))
                                  else old(Snapshot()))
    {
      hide AppendSucceeds, FailsCleanly, RotationLost, OnDisk, Stored, Chain, AllValid, Recovers, Opens, SizedParts,
           AfterAttempt;
      DiskOfValid(this);
      if syncState != StateInSync {
        return PushRejectedNotInSync, nextOffset;
      }
      if target != nextOffset {
        return PushRejectedGap, nextOffset;
      }
      var status := AppendLocked(target, timestamp, payload, faults);
      if status.AppendFailed? {
        return PushRejectedGap, nextOffset;
      }
      return PushAccepted, target;
    }

    /** InvalidateOffset takes back the last record of the log, and only that one. The request is
        met exactly when the record lies in the active segment; after a rotation whose first write
        failed it does not, and the call reports an error and changes nothing. */
    method InvalidateOffset(target: nat, fault: TruncateFault) returns (r: InvalidateResult)
      requires Valid()
      modifies this, activeSegment
      ensures state == old(state) && syncState == old(syncState) && baseOffset == old(baseOffset)
      ensures closedSegments == old(closedSegments) && activeSegment == old(activeSegment)
      ensures var reached := state == PartitionActive && old(nextOffset) == target + 1 && old(LastIsActive());
              && r == (if state != PartitionActive then InvalidateStopped
                       else if old(nextOffset) <= target then InvalidateOk
                       else if target + 1 < old(nextOffset) then InvalidateNotLast
                       else if !old(LastIsActive()) then InvalidateInClosedSegment
                       else if fault.NoTruncateFault? then InvalidateOk
                       else InvalidateIoError)
              && (reached ==> old(recs) != [])
              && recs == (if reached && fault.NoTruncateFault? then old(recs)[..|old(recs)| - 1] else old(recs))
              && nextOffset == baseOffset + |recs|
              && activeSegment.msgs == (if reached && fault.NoTruncateFault?
                                        then old(activeSegment.msgs)[..|old(activeSegment.msgs)| - 1]
                                        else old(activeSegment.msgs))
              && (Valid() <==> !(reached && fault.TruncateSyncFailed?))
              && (old(Sized()) ==> Sized())
              && Recovers(Disk(), if reached && !fault.TruncateFailed?
                                  then AfterCut(old(Snapshot()), target, |old(activeSegment.msgs)| - 1)
                                  else old(Snapshot()))
    {
      hide AllValid, Chain, SizedParts, Recovers, PartitionProcessor.Sized, PartitionProcessor.Disk;
      DiskOfValid(this);
      ActiveBounds(this);
      if state != PartitionActive {
        return InvalidateStopped;
      }
      if nextOffset <= target {
        return InvalidateOk;
      }
      if nextOffset != target + 1 {
        return InvalidateNotLast;
      }
      if target < activeSegment.BaseOffset {
        return InvalidateInClosedSegment;
      }
      var done := TakeBack(target, fault);
      return if done then InvalidateOk else InvalidateIoError;
    }

    /** Takes back the last record of the log, which lies in the active segment. */
    method TakeBack(target: nat, fault: TruncateFault) returns (done: bool)
      requires Valid() && nextOffset == target + 1 && LastIsActive()
      modifies this`nextOffset, this`recs, activeSegment
      ensures done <==> fault.NoTruncateFault?
      ensures old(recs) != [] && old(activeSegment.msgs) != []
      ensures recs == (if done then old(recs)[..|old(recs)| - 1] else old(recs))
      ensures nextOffset == View().Next()
      ensures activeSegment.msgs == (if done then old(activeSegment.msgs)[..|old(activeSegment.msgs)| - 1]
                                     else old(activeSegment.msgs))
      ensures Valid() <==> !fault.TruncateSyncFailed?
      ensures old(Sized()) ==> Sized()
      ensures Recovers(Disk(), if fault.TruncateFailed? then old(Snapshot())
                               else AfterCut(old(Snapshot()), target, |old(activeSegment.msgs)| - 1))
    {
      hide HoldsRecords, Chain, Segment.Valid, SizedParts, Recovers, PartitionProcessor.Disk, AfterCut,
           AllValid, PartitionProcessor.Valid, PartitionProcessor.Sized, AllDifferent, EncodeAll, AllEncodable,
           AfterInvalidate, PartitionProcessor.LastIsActive, Files, Consecutive;
      DiskOfValid(this);
      Unfold(this);
      ghost var l, segs, parts, before := View(), Segments(), Parts(Segments()), Snapshot();
      Fold(this);
      assert before == Image(l, before.sized, true);
      ActiveEndsLog(segs, parts, l);
      DropLastRecord(parts, l);
      BeforeTruncate(segs, parts);
      ghost var shorter := Log(l.base, l.recs[..|l.recs| - 1]);
      assert shorter.Next() == target == activeSegment.BaseOffset + |activeSegment.msgs| - 1;
      var result := activeSegment.TruncateFrom(target, fault);
      done := result.Truncated?;
      if done {
        nextOffset := target;
        recs := shorter.recs;
      }
      assert View() == if done then shorter else l;
      DiskOfDistinct(this);
      OthersStay(segs);
      AfterTruncate(segs, parts, l, target, done, !fault.TruncateFailed?, before.sized);
      Fold(this);
    }

    method ForceInSync()
      modifies this`syncState
      ensures syncState == StateInSync
    {
      syncState := StateInSync;
    }

    /** TryFinalizeInSync: flips to in-sync once the log has reached the leader's high watermark. */
    method TryFinalizeInSync(observedHW: nat) returns (done: bool)
      modifies this`syncState
      ensures done <==> nextOffset >= observedHW
      ensures syncState == if done then StateInSync else old(syncState)
      ensures old(Valid()) ==> Valid()
    {
      if nextOffset < observedHW {
        return false;
      }
      syncState := StateInSync;
      return true;
    }

    /** findSegment: the one segment that holds a live offset. */
    method FindSegment(offset: nat) returns (found: Segment?)
      requires Valid()
      ensures found != null <==> baseOffset <= offset < nextOffset
      ensures found != null ==> found in Segments() && found.BaseOffset <= offset < found.NextOffset
      ensures found != null ==> forall s :: s in Segments() && s.BaseOffset <= offset < s.NextOffset ==> s == found
    {
      hide HoldsRecords, Segment.Valid;
      ghost var segs, parts := Segments(), Parts(Segments());
      SegmentBounds(segs);
      if baseOffset <= offset < nextOffset {
        var owner := OwnerExists(parts, View(), offset, 0);
        SegmentsUnique(segs, parts, View(), offset, owner);
      } else {
        assert forall i :: 0 <= i < |parts| ==> IsPartOf(parts[i], View());
      }
      var i := 0;
      while i < |closedSegments|
        invariant i <= |closedSegments|
        invariant forall j :: 0 <= j < i ==> !(closedSegments[j].BaseOffset <= offset < closedSegments[j].NextOffset)
      {
        var seg := closedSegments[i];
        if seg.BaseOffset <= offset < seg.NextOffset {
          assert segs[i] == seg;
          return seg;
        }
        i := i + 1;
      }
      assert segs[|closedSegments|] == activeSegment;
      if activeSegment.BaseOffset <= offset < activeSegment.NextOffset {
        return activeSegment;
      }
      return null;
    }

    /** Looks an offset up and reads it, as every reader does under the lock. */
    method ReadOne(offset: nat) returns (msg: Option<Message>)
      requires Valid()
      ensures msg == if baseOffset <= offset < nextOffset then Some(recs[offset - baseOffset]) else None
    {
      hide HoldsRecords, Segment.Valid, Chain, AllValid;
      var seg := FindSegment(offset);
      if seg == null {
        return None;
      }
      RecordOf(this, seg, offset);
      var r := seg.Read(offset);
      return Some(r.msg);
    }

    /** ReadBatch: what FetchLog serves, together with the high watermark. */
    method ReadBatch(fromOffset: nat, maxMessages: int) returns (batch: seq<Message>, highWatermark: nat)
      requires Valid()
      ensures highWatermark == nextOffset
      ensures batch == Batch(View(), fromOffset, if maxMessages <= 0 then BATCH_SIZE else maxMessages)
      ensures var limit := if maxMessages <= 0 then 500 else maxMessages;
              |batch| == if baseOffset <= fromOffset < nextOffset
                         then (if fromOffset + limit < nextOffset then limit else nextOffset - fromOffset) else 0
      ensures forall k :: 0 <= k < |batch| ==> batch[k] == recs[fromOffset - baseOffset + k]
    {
      hide HoldsRecords, Segment.Valid, Chain, AllValid;
      var limit := if maxMessages <= 0 then BATCH_SIZE else maxMessages;
      batch := [];
      var current := fromOffset;
      while current < nextOffset && |batch| < limit
        invariant current == fromOffset + |batch| && |batch| <= limit
        invariant batch != [] ==> baseOffset <= fromOffset && current <= nextOffset
        invariant batch != [] ==> batch == Slice(View(), fromOffset, current)
        decreases limit - |batch|
      {
        var msg := ReadOne(current);
        if msg.None? {
          break;
        }
        batch := batch + [msg.value];
        current := current + 1;
      }
      highWatermark := nextOffset;
    }

    /** The first critical section of readFrom. `maxMessages` is a signed 64-bit count that is
        converted to unsigned and added with wrap-around. */
    method ReadFromBounds(startOffset: nat, maxMessages: int, isStream: bool) returns (inRange: bool, endOffset: nat)
      requires IsInt64(maxMessages)
      ensures inRange <==> startOffset >= baseOffset
      ensures inRange ==> endOffset == if isStream then nextOffset
                                       else (startOffset + ToUnsigned(maxMessages)) % TWO_TO_THE_64
    {
      if startOffset < baseOffset {
        return false, 0;
      }
      endOffset := (startOffset + ToUnsigned(maxMessages)) % TWO_TO_THE_64;
      if isStream {
        endOffset := nextOffset;
      }
      return true, endOffset;
    }

    /** The second critical section of readFrom: the records themselves, and the offset at which a
        stream would take over. */
    method ReadFromRange(startOffset: nat, endOffset: nat, maxMessages: int, isStream: bool)
      returns (result: seq<Message>, currentOffset: nat)
      requires Valid()
      ensures currentOffset == startOffset + |result|
      ensures result != [] ==> baseOffset <= startOffset && currentOffset <= nextOffset && currentOffset <= endOffset
      ensures forall k :: 0 <= k < |result| ==> result[k] == recs[startOffset - baseOffset + k]
      ensures maxMessages > 0 && !isStream ==> |result| <= maxMessages
      ensures baseOffset <= startOffset ==> currentOffset >= endOffset || currentOffset >= nextOffset
                                            || (maxMessages > 0 && !isStream && |result| == maxMessages)
    {
      hide HoldsRecords, Segment.Valid, Chain, AllValid;
      result := [];
      currentOffset := startOffset;
      NextOfView(this);
      while currentOffset < endOffset && currentOffset < nextOffset
        invariant currentOffset == startOffset + |result|
        invariant maxMessages > 0 && !isStream ==> |result| <= maxMessages
        invariant result != [] ==> baseOffset <= startOffset && currentOffset <= nextOffset && currentOffset <= endOffset
        invariant forall k :: 0 <= k < |result| ==> result[k] == recs[startOffset - baseOffset + k]
        decreases endOffset - currentOffset
      {
        if maxMessages > 0 && |result| >= maxMessages && !isStream {
          break;
        }
        var msg := ReadOne(currentOffset);
        if msg.None? {
          break;
        }
        result := result + [msg.value];
        currentOffset := currentOffset + 1;
      }
    }

    /** CleanOldMessages: removes the closed segments whose file is older than the cutoff. The rest is
        still one log exactly when the removed files are the oldest ones and each removal succeeds
        (a segment whose removal fails stays listed with a closed file). */
    method CleanOldMessages(cutoffTime: int, stats: seq<FileStat>)
      requires Valid() && |stats| == |closedSegments|
      modifies this`closedSegments, this`baseOffset, this`recs, (set s | s in closedSegments)`open
      ensures nextOffset == old(nextOffset) && activeSegment == old(activeSegment)
      ensures closedSegments == Kept(old(closedSegments), stats, cutoffTime)
      ensures forall s :: s in closedSegments <==>
                exists i :: 0 <= i < |stats| && old(closedSegments)[i] == s
                            && !(stats[i].modTime.Some? && stats[i].modTime.value < cutoffTime && stats[i].removable)
      ensures Valid() <==> RemovesOldest(stats, cutoffTime)
      ensures Valid() ==> old(baseOffset) <= baseOffset <= nextOffset
                          && recs == old(recs)[baseOffset - old(baseOffset)..]
      ensures old(Sized()) && Valid() ==> Sized()
    {
      hide HoldsRecords, Chain, Segment.Valid, Kept, RemovesOldest, AllValid, Expired, AllDifferent, SizedParts;
      ghost var l, closed, parts := View(), closedSegments, Parts(Segments());
      SplitSegments(closed, activeSegment);
      var remainingClosed := CloseExpired(cutoffTime, stats);
      closedSegments := remainingClosed;
      if |closedSegments| > 0 {
        baseOffset := closedSegments[0].BaseOffset;
      } else {
        baseOffset := activeSegment.BaseOffset;
      }
      recs := if RemovesOldest(stats, cutoffTime) then RecordsFrom(l, baseOffset) else recs;
      KeptMeans(closed, stats, cutoffTime);
      AfterRetention(this, closed, parts, l, stats, cutoffTime);
    }

    /** Closes the files of the expired segments and lists the segments that stay. */
    method CloseExpired(cutoffTime: int, stats: seq<FileStat>) returns (remainingClosed: seq<Segment>)
      requires AllValid(Segments()) && |stats| == |closedSegments|
      modifies (set s | s in closedSegments)`open
      ensures remainingClosed == Kept(closedSegments, stats, cutoffTime)
      ensures activeSegment.Valid()
      ensures forall j :: 0 <= j < |closedSegments| ==>
                (closedSegments[j].Valid() <==> !Expired(stats[j], cutoffTime))
    {
      hide AllEncodable, Consecutive, EncodeAll, IndexOf;
      ghost var segs := Segments();
      assert forall j :: 0 <= j < |closedSegments| ==> segs[j] == closedSegments[j] && segs[j].Valid();
      assert segs[|closedSegments|] == activeSegment && activeSegment.Valid();
      assert activeSegment !in closedSegments;
      remainingClosed := [];
      for i := 0 to |closedSegments|
        invariant remainingClosed == Kept(closedSegments[..i], stats[..i], cutoffTime)
        invariant forall j :: 0 <= j < |closedSegments| ==>
                    closedSegments[j].open == (j >= i || !Expired(stats[j], cutoffTime))
        invariant activeSegment.open
      {
        assert closedSegments[..i + 1][..i] == closedSegments[..i] && stats[..i + 1][..i] == stats[..i];
        var seg := closedSegments[i];
        if Expired(stats[i], cutoffTime) {
          seg.Close();
          if !stats[i].removable {
            remainingClosed := remainingClosed + [seg];
          }
        } else {
          remainingClosed := remainingClosed + [seg];
        }
      }
      assert closedSegments[..|closedSegments|] == closedSegments && stats[..|closedSegments|] == stats;
    }
  }

  /** What the file system says about one closed segment: its modification time, unless stat fails,
      and whether removing it would succeed. */
  datatype FileStat = FileStat(modTime: Option<int>, removable: bool)

  predicate Expired(f: FileStat, cutoffTime: int) {
    f.modTime.Some? && f.modTime.value < cutoffTime
  }

  /** The segments that retention keeps listed. */
  function Kept<T>(segs: seq<T>, stats: seq<FileStat>, cutoffTime: int): seq<T>
    requires |segs| == |stats|
  {
    if segs == [] then []
    else
      var n := |segs| - 1;
      Kept(segs[..n], stats[..n], cutoffTime)
      + (if Expired(stats[n], cutoffTime) && stats[n].removable then [] else [segs[n]])
  }

  ghost predicate RemovesOldest(stats: seq<FileStat>, cutoffTime: int) {
    && (forall i :: 0 <= i < |stats| && Expired(stats[i], cutoffTime) ==> stats[i].removable)
    && (forall i, j :: 0 <= i < j < |stats| && Expired(stats[j], cutoffTime) ==> Expired(stats[i], cutoffTime))
  }

  lemma {:induction false} ExpiredAreFirst(stats: seq<FileStat>, cutoffTime: int) returns (k: nat)
    requires RemovesOldest(stats, cutoffTime)
    ensures k <= |stats|
    ensures forall i :: 0 <= i < |stats| ==> (Expired(stats[i], cutoffTime) <==> i < k)
  {
    k := 0;
    while k < |stats| && Expired(stats[k], cutoffTime)
      invariant k <= |stats| && forall i :: 0 <= i < k ==> Expired(stats[i], cutoffTime)
    {
      k := k + 1;
    }
  }

  lemma {:induction false} KeptIsSuffix<T>(segs: seq<T>, stats: seq<FileStat>, cutoffTime: int, k: nat)
    requires |segs| == |stats| && k <= |segs|
    requires forall i :: 0 <= i < |stats| ==> (Expired(stats[i], cutoffTime) <==> i < k)
    requires forall i :: 0 <= i < k ==> stats[i].removable
    ensures Kept(segs, stats, cutoffTime) == segs[k..]
  {
    if segs != [] {
      var n := |segs| - 1;
      if k <= n {
        KeptIsSuffix(segs[..n], stats[..n], cutoffTime, k);
        assert segs[k..] == segs[..n][k..] + [segs[n]];
      } else {
        KeptIsSuffix(segs[..n], stats[..n], cutoffTime, n);
        assert segs[..n][n..] == [] && segs[k..] == [];
      }
    }
  }

  lemma {:induction false} KeptMembers<T>(segs: seq<T>, stats: seq<FileStat>, cutoffTime: int)
    requires |segs| == |stats|
    ensures forall s :: s in Kept(segs, stats, cutoffTime) ==>
              exists i :: 0 <= i < |segs| && segs[i] == s && !(Expired(stats[i], cutoffTime) && stats[i].removable)
    ensures forall i :: 0 <= i < |segs| && !(Expired(stats[i], cutoffTime) && stats[i].removable) ==>
              segs[i] in Kept(segs, stats, cutoffTime)
  {
    if segs != [] {
      var n := |segs| - 1;
      KeptMembers(segs[..n], stats[..n], cutoffTime);
    }
  }

  /** Retention takes a segment off the list exactly if its file is known to be older than the cutoff and
      could be removed. */
  lemma KeptMeans<T>(segs: seq<T>, stats: seq<FileStat>, cutoffTime: int)
    requires |segs| == |stats|
    ensures forall s :: s in Kept(segs, stats, cutoffTime) <==>
              exists i :: 0 <= i < |stats| && segs[i] == s
                          && !(stats[i].modTime.Some? && stats[i].modTime.value < cutoffTime && stats[i].removable)
  {
    KeptMembers(segs, stats, cutoffTime);
    forall s | s in Kept(segs, stats, cutoffTime)
      ensures exists i :: 0 <= i < |stats| && segs[i] == s
                          && !(stats[i].modTime.Some? && stats[i].modTime.value < cutoffTime && stats[i].removable)
    {
      var i :| 0 <= i < |segs| && segs[i] == s && !(Expired(stats[i], cutoffTime) && stats[i].removable);
    }
  }

  /** A part missing from the middle is a gap that no log fills. */
  lemma GapIsNoChain(parts: seq<Part>, l: Log<Message>, parts': seq<Part>, l': Log<Message>, i: nat, j: nat)
    requires Chain(parts, l) && l'.Next() == l.Next() && i < j < |parts| - 1
    requires parts[i] in parts'
    requires forall p :: p in parts' ==> exists y :: 0 <= y < |parts| && y != j && parts[y] == p
    ensures !Chain(parts', l')
  {
    if Chain(parts', l') {
      var offset := parts[j].base;
      assert Linked(parts, j);
      ChainIsOrdered(parts, l, i, j);
      ChainIsOrdered(parts, l, j, |parts| - 1);
      var x :| 0 <= x < |parts'| && parts'[x] == parts[i];
      assert IsPartOf(parts'[x], l');
      assert IsPartOf(parts[|parts| - 1], l);
      var owner := OwnerExists(parts', l', offset, 0);
      assert parts'[owner] in parts';
      var y :| 0 <= y < |parts| && y != j && parts[y] == parts'[owner];
      OwnerIsUnique(parts, l, offset, y, j);
    }
  }

  /** Where one read stops. */
  function ReadLimit<T>(l: Log<T>, startOffset: nat, endOffset: nat, maxMessages: int, isStream: bool): nat {
    var hi := if endOffset < l.Next() then endOffset else l.Next();
    if maxMessages > 0 && !isStream && startOffset + maxMessages < hi then startOffset + maxMessages else hi
  }

  /** What such a read returns: the records between start and limit. */
  lemma ReadIsSlice(l: Log<Message>, startOffset: nat, endOffset: nat, maxMessages: int, isStream: bool, result: seq<Message>)
    requires result != [] ==> l.base <= startOffset && startOffset + |result| <= l.Next()
                              && startOffset + |result| <= endOffset
    requires forall k :: 0 <= k < |result| ==> result[k] == l.recs[startOffset - l.base + k]
    requires maxMessages > 0 && !isStream ==> |result| <= maxMessages
    requires l.base <= startOffset ==> startOffset + |result| >= endOffset || startOffset + |result| >= l.Next()
                                       || (maxMessages > 0 && !isStream && |result| == maxMessages)
    ensures var hi := ReadLimit(l, startOffset, endOffset, maxMessages, isStream);
            result == if l.base <= startOffset < hi then Slice(l, startOffset, hi) else []
  {
    var hi := ReadLimit(l, startOffset, endOffset, maxMessages, isStream);
    if l.base <= startOffset < hi {
      assert startOffset + |result| == hi;
    } else {
      assert result == [];
    }
  }

  /** A process that dies, in whatever state, and comes back: reopening what is on disk, in whatever
      order the directory lists it and among whatever other files, gives its image. */
  method Reopen(p: PartitionProcessor, listing: seq<File>, startOffset: nat, ghost image: Image)
    returns (q: PartitionProcessor)
    requires Recovers(p.Disk(), image) && Lists(listing, p.Disk())
    ensures fresh(q) && q.Valid() && q.View() == image.log && q.nextOffset == image.log.Next()
    ensures (image.sized ==> q.Sized()) && q.LastIsActive() == image.lastActive
    ensures q.syncState == StateReplicating && q.state == PartitionActive
    ensures forall s :: s in q.Segments() ==> fresh(s)
  {
    hide Recovers, Lists, Chain, SizedParts, AllValid;
    q := new PartitionProcessor(listing, startOffset);
  }

  /** Restart is the identity on the log and on where its last record lies. */
  method Restart(p: PartitionProcessor, listing: seq<File>, startOffset: nat) returns (q: PartitionProcessor)
    requires p.Valid() && Lists(listing, Files(p.Segments()))
    ensures fresh(q) && q.Valid() && q.View() == p.View() && q.nextOffset == p.nextOffset
    ensures (p.Sized() ==> q.Sized()) && q.LastIsActive() == p.LastIsActive()
    ensures q.syncState == StateReplicating
  {
    hide Recovers, Lists, Chain, SizedParts, AllValid;
    DiskOfValid(p);
    q := Reopen(p, listing, startOffset, p.Snapshot());
  }

  lemma NextOfView(p: PartitionProcessor)
    requires p.Valid()
    ensures p.nextOffset == p.View().Next()
  {
  }

  lemma DiskOfDistinct(p: PartitionProcessor)
    requires p.closedSegments == [] || p.closedSegments[|p.closedSegments| - 1] != p.activeSegment
    ensures p.Disk() == Files(p.Segments())
  {
  }

  /** The parts of a usable partition's state, one by one. */
  lemma Unfold(p: PartitionProcessor)
    requires p.Valid()
    ensures AllValid(p.Segments()) && Chain(Parts(p.Segments()), p.View()) && p.nextOffset == p.View().Next()
    ensures p.activeSegment.Valid() && p.Segments()[|p.closedSegments|] == p.activeSegment
    ensures AllDifferent(p.Segments())
    ensures forall i :: 0 <= i < |p.closedSegments| ==> p.Segments()[i] != p.activeSegment
  {
    hide Chain, Segment.Valid;
    assert p.Segments()[|p.closedSegments|] == p.activeSegment;
  }

  lemma Fold(p: PartitionProcessor)
    requires p.nextOffset == p.View().Next() && Chain(Parts(p.Segments()), p.View())
    ensures p.Valid() <==> AllValid(p.Segments())
    ensures p.Sized() <==> SizedParts(Parts(p.Segments()))
    ensures p.LastIsActive() <==> p.activeSegment.BaseOffset < p.activeSegment.NextOffset
  {
    hide Chain, AllValid, SizedParts;
  }

  /** A change of the active segment leaves the closed ones as they were. */
  twostate lemma OthersStay(segs: seq<Segment>)
    requires segs != [] && old(AllValid(segs))
    requires forall i :: 0 <= i < |segs| - 1 ==> unchanged(segs[i])
    ensures forall i :: 0 <= i < |segs| - 1 ==> segs[i].Valid() && PartOf(segs[i]) == old(Parts(segs))[i]
  {
  }

  lemma CutImage(before: Image, target: nat, left: nat)
    requires before.log.Next() == target + 1 && before.log.recs != []
    ensures AfterCut(before, target, left)
            == Image(Log(before.log.base, before.log.recs[..|before.log.recs| - 1]), before.sized, left > 0)
  {
  }

  lemma RecoversLess(files: seq<File>, image: Image, sized: bool)
    requires Recovers(files, image) && (sized ==> image.sized)
    ensures Recovers(files, image.(sized := sized))
  {
    var parts :| FilesHold(files, parts) && IsImage(parts, image);
    assert IsImage(parts, image.(sized := sized));
  }

  lemma FilesOfPartition(p: PartitionProcessor)
    requires p.Valid()
    ensures Recovers(Files(p.Segments()), p.Snapshot())
  {
    hide Chain, Segment.Valid, HoldsRecords, SizedParts;
    var segs := p.Segments();
    var last := segs[|segs| - 1];
    ValidSegment(last);
    assert Parts(segs)[|segs| - 1 := Part(last.BaseOffset, last.msgs)] == Parts(segs);
    SegmentsRecover(segs, last.msgs, p.Snapshot());
  }

  /** A usable partition has one file per segment, and they recover to what it holds. */
  lemma DiskOfValid(p: PartitionProcessor)
    requires p.Valid()
    ensures p.closedSegments == [] || p.closedSegments[|p.closedSegments| - 1] != p.activeSegment
    ensures p.Disk() == Files(p.Segments()) && Recovers(p.Disk(), p.Snapshot())
    ensures p.LastIsActive() <==> p.activeSegment.msgs != []
  {
    hide Chain, Segment.Valid, HoldsRecords, SizedParts, Recovers;
    FilesOfPartition(p);
    var segs, n := p.Segments(), |p.closedSegments|;
    assert segs[n] == p.activeSegment;
    assert n > 0 ==> segs[n - 1] == p.closedSegments[n - 1];
    ValidSegment(p.activeSegment);
  }

  /** Valid segments whose last file holds `ms`, perhaps with a torn tail, recover to this image. */
  lemma SegmentsRecover(segs: seq<Segment>, ms: seq<Message>, image: Image)
    requires segs != [] && forall i :: 0 <= i < |segs| - 1 ==> segs[i].Valid()
    requires var last := segs[|segs| - 1];
             && HoldsRecords(last.BaseOffset, last.file, ms)
             && IsImage(Parts(segs)[|segs| - 1 := Part(last.BaseOffset, ms)], image)
    ensures Recovers(Files(segs), image)
  {
    hide HoldsRecords, Chain, Segment.Valid, IsImage;
    var parts := Parts(segs)[|segs| - 1 := Part(segs[|segs| - 1].BaseOffset, ms)];
    forall i | 0 <= i < |segs| - 1 ensures HoldsRecords(segs[i].BaseOffset, segs[i].file, segs[i].msgs) {
      ValidSegment(segs[i]);
    }
    assert FilesHold(Files(segs), parts);
  }

  lemma BeforeWrite(segs: seq<Segment>, parts: seq<Part>, l: Log<Message>, offset: nat, timestamp: int, payload: seq<Byte>)
    requires AllValid(segs) && parts == Parts(segs) && Chain(parts, l)
    requires offset == l.Next() <= LAST_OFFSET && IsInt64(timestamp)
    requires segs[|segs| - 1].CurrentSize < MAX_SEGMENT_SIZE
    ensures segs[|segs| - 1].NextOffset == l.Next()
    ensures var rec := Stored(offset, timestamp, payload);
            var longer := parts[|segs| - 1 := Part(parts[|segs| - 1].base, parts[|segs| - 1].msgs + [rec])];
            && Chain(longer, Log(l.base, l.recs + [rec]))
            && (SizedParts(parts) && BuildBuffer(offset, timestamp, payload).Some? ==> SizedParts(longer))
  {
    hide Chain, SizedParts, BuildBuffer, StoredPayload, EncodeAll;
    var last := |segs| - 1;
    var rec := Stored(offset, timestamp, payload);
    ActiveEndsLog(segs, parts, l);
    assert PartOf(segs[last]) == parts[last];
    AppendToLast(parts, l, rec);
    if BuildBuffer(offset, timestamp, payload).Some? && SizedParts(parts) {
      BufferIsEncoding(offset, timestamp, payload);
      SizedAfterAppend(parts, rec);
    }
  }

  /** The state after the active segment's Append: what the parts are, whether the partition is
      still valid, and what the disk recovers to. */
  lemma AfterWrite(segs: seq<Segment>, parts: seq<Part>, l: Log<Message>, rec: Message, written: bool, whole: bool,
                   sized: bool)
    requires segs != [] && |parts| == |segs|
    requires AllDifferent(segs)
    requires forall i :: 0 <= i < |segs| - 1 ==> segs[i].Valid() && PartOf(segs[i]) == parts[i]
    requires written ==> whole
    requires var last := |segs| - 1;
             var longer := parts[last := Part(parts[last].base, parts[last].msgs + [rec])];
             && segs[last].BaseOffset == parts[last].base
             && segs[last].msgs == (if written then parts[last].msgs + [rec] else parts[last].msgs)
             && HoldsRecords(parts[last].base, segs[last].file,
                             if whole then parts[last].msgs + [rec] else parts[last].msgs)
             && Chain(parts, l)
             && Chain(longer, Log(l.base, l.recs + [rec]))
             && (sized ==> SizedParts(parts)) && (sized && whole ==> SizedParts(longer))
    ensures Chain(Parts(segs), if written then Log(l.base, l.recs + [rec]) else l)
    ensures AllValid(segs) <==> segs[|segs| - 1].Valid()
    ensures sized ==> SizedParts(Parts(segs))
    ensures Recovers(Files(segs), AfterAttempt(Image(l, sized, parts[|parts| - 1].msgs != []), rec, false, whole))
  {
    hide HoldsRecords, Chain, Segment.Valid, SizedParts, Recovers;
    var last := |segs| - 1;
    var longer := parts[last := Part(parts[last].base, parts[last].msgs + [rec])];
    assert Parts(segs) == if written then longer else parts;
    assert parts[last := Part(parts[last].base, parts[last].msgs)] == parts;
    assert Parts(segs)[last := Part(parts[last].base, if whole then parts[last].msgs + [rec] else parts[last].msgs)]
        == if whole then longer else parts;
    SegmentsRecover(segs, if whole then parts[last].msgs + [rec] else parts[last].msgs,
                    AfterAttempt(Image(l, sized, parts[last].msgs != []), rec, false, whole));
    LastDecides(segs);
  }

  lemma BeforeTruncate(segs: seq<Segment>, parts: seq<Part>)
    requires segs != [] && AllValid(segs) && parts == Parts(segs) && parts[|segs| - 1].msgs != []
    ensures var last, n := |parts| - 1, |parts[|parts| - 1].msgs|;
            SizedParts(parts) ==> SizedParts(parts[last := Part(parts[last].base, parts[last].msgs[..n - 1])])
  {
    if SizedParts(parts) {
      SizedAfterDrop(parts);
    }
  }

  /** The state after the active segment's TruncateFrom, done or not, and whether it has reached the disk. */
  lemma AfterTruncate(segs: seq<Segment>, parts: seq<Part>, l: Log<Message>, target: nat, done: bool, cut: bool,
                      sized: bool)
    requires l.Next() == target + 1 && segs != [] && |parts| == |segs| && parts[|segs| - 1].msgs != [] && l.recs != [] && (done ==> cut)
    requires AllDifferent(segs)
    requires forall i :: 0 <= i < |segs| - 1 ==> segs[i].Valid() && PartOf(segs[i]) == parts[i]
    requires var last := |segs| - 1;
             var left := parts[last].msgs[..|parts[last].msgs| - 1];
             var shorter := parts[last := Part(parts[last].base, left)];
             && segs[last].BaseOffset == parts[last].base
             && segs[last].msgs == (if done then left else parts[last].msgs)
             && HoldsRecords(parts[last].base, segs[last].file, if cut then left else parts[last].msgs)
             && Chain(parts, l) && Chain(shorter, Log(l.base, l.recs[..|l.recs| - 1]))
             && (sized ==> SizedParts(parts) && SizedParts(shorter))
    ensures Chain(Parts(segs), if done then Log(l.base, l.recs[..|l.recs| - 1]) else l)
    ensures AllValid(segs) <==> segs[|segs| - 1].Valid()
    ensures sized ==> SizedParts(Parts(segs))
    ensures Recovers(Files(segs), if cut then AfterCut(Image(l, sized, true), target, |parts[|parts| - 1].msgs| - 1)
                                  else Image(l, sized, true))
  {
    hide AfterCut, AfterInvalidate, Chain, Segment.Valid, SizedParts, HoldsRecords, Recovers;
    var last := |segs| - 1;
    var left := parts[last].msgs[..|parts[last].msgs| - 1];
    var shorter := parts[last := Part(parts[last].base, left)];
    assert Parts(segs) == if done then shorter else parts;
    LastDecides(segs);
    if cut {
      CutImage(Image(l, sized, true), target, |left|);
      assert Parts(segs)[last := Part(parts[last].base, left)] == shorter;
      SegmentsRecover(segs, left, AfterCut(Image(l, sized, true), target, |left|));
    } else {
      assert Parts(segs)[last := Part(parts[last].base, parts[last].msgs)] == parts;
      SegmentsRecover(segs, parts[last].msgs, Image(l, sized, true));
    }
  }

  lemma LastDecides(segs: seq<Segment>)
    requires segs != [] && forall i :: 0 <= i < |segs| - 1 ==> segs[i].Valid()
    requires AllDifferent(segs)
    ensures AllValid(segs) <==> segs[|segs| - 1].Valid()
  {
    hide Segment.Valid;
  }

  lemma ValidSegment(s: Segment)
    requires s.Valid()
    ensures s.NextOffset == s.BaseOffset + |s.msgs|
    ensures HoldsRecords(s.BaseOffset, s.file, s.msgs)
  {
    WholeFile(s.BaseOffset, s.msgs);
  }

  lemma ActiveEndsLog(segs: seq<Segment>, parts: seq<Part>, l: Log<Message>)
    requires AllValid(segs) && parts == Parts(segs) && Chain(parts, l)
    ensures segs != [] && segs[|segs| - 1].NextOffset == l.Next()
    ensures parts[|segs| - 1].msgs != [] <==> segs[|segs| - 1].BaseOffset < segs[|segs| - 1].NextOffset
    ensures segs[|segs| - 1].NextOffset == segs[|segs| - 1].BaseOffset + |segs[|segs| - 1].msgs|
  {
    ValidSegment(segs[|segs| - 1]);
  }

  lemma ActiveBounds(p: PartitionProcessor)
    requires p.Valid()
    ensures p.activeSegment.Valid() && p.activeSegment.NextOffset == p.nextOffset == p.View().Next()
    ensures p.activeSegment.msgs != [] ==> p.recs != []
  {
    var segs, parts, n := p.Segments(), Parts(p.Segments()), |p.closedSegments|;
    ActiveEndsLog(segs, parts, p.View());
    assert segs[n] == p.activeSegment && parts[n] == PartOf(p.activeSegment) && IsPartOf(parts[n], p.View());
  }

  lemma SegmentBounds(segs: seq<Segment>)
    requires AllValid(segs)
    ensures forall i :: 0 <= i < |segs| ==> segs[i].BaseOffset == Parts(segs)[i].base
                                            && segs[i].NextOffset == Parts(segs)[i].Next()
  {
    forall i | 0 <= i < |segs| ensures segs[i].NextOffset == Parts(segs)[i].Next() {
      ValidSegment(segs[i]);
    }
  }

  lemma SegmentsUnique(segs: seq<Segment>, parts: seq<Part>, l: Log<Message>, offset: nat, owner: nat)
    requires AllValid(segs) && parts == Parts(segs) && Chain(parts, l)
    requires owner < |parts| && parts[owner].base <= offset < parts[owner].Next()
    ensures forall s :: s in segs && s.BaseOffset <= offset < s.NextOffset ==> s == segs[owner]
  {
    SegmentBounds(segs);
    forall i | 0 <= i < |segs| && segs[i].BaseOffset <= offset < segs[i].NextOffset ensures i == owner {
      OwnerIsUnique(parts, l, offset, i, owner);
    }
  }

  /** Reading a live offset through its segment gives the log's record there. */
  lemma RecordOf(p: PartitionProcessor, seg: Segment, offset: nat)
    requires p.Valid() && seg in p.Segments() && seg.BaseOffset <= offset < seg.NextOffset
    ensures seg.Valid() && p.baseOffset <= offset < p.nextOffset
    ensures seg.NextOffset == seg.BaseOffset + |seg.msgs|
    ensures seg.msgs[offset - seg.BaseOffset] == p.recs[offset - p.baseOffset]
  {
    hide Chain, Segment.Valid;
    var segs, parts := p.Segments(), Parts(p.Segments());
    var i :| 0 <= i < |segs| && segs[i] == seg;
    assert parts[i] == PartOf(seg);
    ValidSegment(seg);
    RecordOfPart(parts, p.View(), i, offset);
  }

  lemma RecordOfPart(parts: seq<Part>, l: Log<Message>, i: nat, offset: nat)
    requires Chain(parts, l) && i < |parts| && parts[i].base <= offset < parts[i].Next()
    ensures l.base <= offset < l.Next()
    ensures parts[i].msgs[offset - parts[i].base] == l.recs[offset - l.base]
  {
    assert IsPartOf(parts[i], l);
  }

  function RecordsFrom<T>(l: Log<T>, base: nat): seq<T> {
    if l.base <= base <= l.Next() then l.recs[base - l.base..] else l.recs
  }

  lemma SplitSegments(closed: seq<Segment>, active: Segment)
    requires AllValid(closed + [active])
    ensures active !in closed && active.Valid()
    ensures AllDifferent(closed)
    ensures forall j :: 0 <= j < |closed| ==> closed[j].Valid() && PartOf(closed[j]) == Parts(closed + [active])[j]
    ensures PartOf(active) == Parts(closed + [active])[|closed|]
  {
    hide Segment.Valid;
    var segs := closed + [active];
    assert segs[|closed|] == active;
    assert forall j :: 0 <= j < |closed| ==> segs[j] == closed[j];
  }

  lemma AfterRetention(p: PartitionProcessor, closed: seq<Segment>, parts: seq<Part>, l: Log<Message>,
                       stats: seq<FileStat>, cutoffTime: int)
    requires Chain(parts, l) && |parts| == |closed| + 1 && |stats| == |closed|
    requires p.activeSegment !in closed && AllDifferent(closed)
    requires forall j :: 0 <= j < |closed| ==> PartOf(closed[j]) == parts[j]
    requires PartOf(p.activeSegment) == parts[|closed|] && p.activeSegment.Valid()
    requires forall j :: 0 <= j < |closed| ==> (closed[j].Valid() <==> !Expired(stats[j], cutoffTime))
    requires p.closedSegments == Kept(closed, stats, cutoffTime) && p.nextOffset == l.Next()
    requires p.baseOffset == p.Segments()[0].BaseOffset
    requires RemovesOldest(stats, cutoffTime) ==> p.recs == RecordsFrom(l, p.baseOffset)
    ensures p.Valid() <==> RemovesOldest(stats, cutoffTime)
    ensures p.Valid() ==> l.base <= p.baseOffset <= l.Next()
                          && p.recs == l.recs[p.baseOffset - l.base..]
    ensures SizedParts(parts) && p.Valid() ==> p.Sized()
  {
    hide Chain, Segment.Valid, SizedParts;
    if RemovesOldest(stats, cutoffTime) {
      var segs := closed + [p.activeSegment];
      assert segs[..|stats|] == closed;
      var k := OldestRemoved(segs, parts, l, stats, cutoffTime);
      assert p.Segments() == segs[k..];
      assert p.baseOffset == parts[k].base;
    } else {
      GapRemains(closed, p.activeSegment, parts, l, stats, cutoffTime, p.closedSegments, p.View());
    }
  }

  /** Clean retention leaves the newest segments, and they are a log of their own. */
  lemma OldestRemoved(segs: seq<Segment>, parts: seq<Part>, l: Log<Message>, stats: seq<FileStat>, cutoffTime: int)
    returns (k: nat)
    requires Chain(parts, l) && |parts| == |segs| == |stats| + 1
    requires AllDifferent(segs)
    requires forall j :: 0 <= j < |segs| ==> PartOf(segs[j]) == parts[j]
    requires forall j :: 0 <= j < |stats| ==> (segs[j].Valid() <==> !Expired(stats[j], cutoffTime))
    requires segs[|stats|].Valid()
    requires RemovesOldest(stats, cutoffTime)
    ensures k < |segs| && l.base <= parts[k].base <= l.Next()
    ensures Kept(segs[..|stats|], stats, cutoffTime) + [segs[|stats|]] == segs[k..]
    ensures AllValid(segs[k..])
    ensures Chain(Parts(segs[k..]), Log(parts[k].base, l.recs[parts[k].base - l.base..]))
    ensures SizedParts(parts) ==> SizedParts(Parts(segs[k..]))
  {
    hide Chain, Segment.Valid, SizedParts;
    k := ExpiredAreFirst(stats, cutoffTime);
    KeptIsSuffix(segs[..|stats|], stats, cutoffTime, k);
    DropFirstParts(parts, l, k);
    assert Parts(segs[k..]) == parts[k..];
    if SizedParts(parts) {
      SizedSuffix(parts, k);
    }
  }

  /** Retention that is not clean leaves a segment with a closed file, or a gap. */
  lemma GapRemains(closed: seq<Segment>, active: Segment, parts: seq<Part>, l: Log<Message>,
                   stats: seq<FileStat>, cutoffTime: int, kept: seq<Segment>, l': Log<Message>)
    requires Chain(parts, l) && |parts| == |closed| + 1 && |stats| == |closed|
    requires forall j :: 0 <= j < |closed| ==> PartOf(closed[j]) == parts[j]
    requires PartOf(active) == parts[|closed|]
    requires forall j :: 0 <= j < |closed| ==> (closed[j].Valid() <==> !Expired(stats[j], cutoffTime))
    requires kept == Kept(closed, stats, cutoffTime)
    requires !RemovesOldest(stats, cutoffTime)
    ensures !(AllValid(kept + [active]) && Chain(Parts(kept + [active]), l') && l'.Next() == l.Next())
  {
    hide Chain, Segment.Valid;
    KeptMembers(closed, stats, cutoffTime);
    var segs := kept + [active];
    if i :| 0 <= i < |stats| && Expired(stats[i], cutoffTime) && !stats[i].removable {
      var x :| 0 <= x < |kept| && kept[x] == closed[i];
      assert segs[x] == closed[i];
    } else if l'.Next() == l.Next() {
      var i, j :| 0 <= i < j < |stats| && Expired(stats[j], cutoffTime) && !Expired(stats[i], cutoffTime);
      var parts' := Parts(segs);
      var x :| 0 <= x < |kept| && kept[x] == closed[i];
      assert parts'[x] == PartOf(segs[x]) == parts[i];
      forall p | p in parts' ensures exists y :: 0 <= y < |parts| && y != j && parts[y] == p {
        var z :| 0 <= z < |parts'| && parts'[z] == p;
        if z == |kept| {
          assert parts[|closed|] == p;
        } else {
          assert segs[z] == kept[z] && kept[z] in kept;
          var y :| 0 <= y < |closed| && closed[y] == kept[z] && !(Expired(stats[y], cutoffTime) && stats[y].removable);
          assert parts[y] == p;
        }
      }
      GapIsNoChain(parts, l, parts', l', i, j);
    }
  }

  lemma ReopenedChain(segs: seq<Segment>, parts: seq<Part>, l: Log<Message>)
    requires Reopened(segs, parts) && Chain(parts, l)
    ensures segs != [] && AllValid(segs) && Parts(segs) == parts
    ensures segs[|segs| - 1].NextOffset == l.Next()
    ensures l == Log(segs[0].BaseOffset, Joined(Parts(segs)))
    ensures parts[|parts| - 1].msgs != [] <==> segs[|segs| - 1].BaseOffset < segs[|segs| - 1].NextOffset
  {
    ChainJoins(parts, l);
    ActiveEndsLog(segs, parts, l);
  }

  lemma EmptyChain(base: nat)
    requires base < TWO_TO_THE_64
    ensures Chain([Part(base, [])], Log(base, [])) && SizedParts([Part(base, [])])
  {
    hide EncodeAll;
    var none: Log<Message> := Log(base, []);
    assert Slice(none, base, base) == [];
  }

  /** A full active segment that is listed as closed as well makes the partition unusable, and has one file. */
  lemma ListedTwice(p: PartitionProcessor)
    requires p.closedSegments != [] && p.closedSegments[|p.closedSegments| - 1] == p.activeSegment
    ensures !p.Valid() && p.Disk() == Files(p.closedSegments)
  {
    hide Segment.Valid, Chain;
    var n := |p.closedSegments|;
    assert p.Segments()[n - 1] == p.Segments()[n];
  }

  lemma FullPart(segs: seq<Segment>, parts: seq<Part>, l: Log<Message>)
    requires segs != [] && AllValid(segs) && parts == Parts(segs) && Chain(parts, l)
    requires segs[|segs| - 1].CurrentSize >= MAX_SEGMENT_SIZE
    ensures Chain(parts + [Part(l.Next(), [])], l)
    ensures SizedParts(parts) ==> SizedParts(parts + [Part(l.Next(), [])])
  {
    hide SizedParts, Chain, EncodeAll;
    FullSegmentHasRecords(segs[|segs| - 1]);
    assert PartOf(segs[|segs| - 1]) == parts[|segs| - 1];
    AddEmptyPart(parts, l);
    if SizedParts(parts) {
      SizedAfterRotation(parts, l.Next());
    }
  }

  lemma AddedSegment(segs: seq<Segment>, parts: seq<Part>, l: Log<Message>, added: Segment, sized: bool)
    requires AllValid(segs) && Parts(segs) == parts && added !in segs
    requires added.Valid() && PartOf(added) == Part(l.Next(), []) && added.file == []
    requires Chain(parts + [Part(l.Next(), [])], l) && (sized ==> SizedParts(parts + [Part(l.Next(), [])]))
    ensures AllValid(segs + [added]) && Chain(Parts(segs + [added]), l)
    ensures sized ==> SizedParts(Parts(segs + [added]))
  {
    hide Segment.Valid, Chain, SizedParts;
    assert Parts(segs + [added]) == parts + [Part(l.Next(), [])];
  }

  lemma FullSegmentHasRecords(s: Segment)
    requires s.Valid() && s.CurrentSize >= MAX_SEGMENT_SIZE
    ensures s.msgs != []
  {
    if s.msgs == [] {
      assert false;
    }
  }

  lemma EmptyFileHoldsNothing(base: nat)
    requires base < TWO_TO_THE_64
    ensures HoldsRecords(base, [], [])
  {
  }

  // --- Segment sizes, and the rollback that is refused ---

  /** In a partition of proper sizes every closed segment has reached the limit of 10 MiB, and no segment
      passes it by as much as its last record. */
  lemma SegmentSizes(p: PartitionProcessor, s: Segment)
    requires p.Valid() && p.Sized() && s in p.Segments()
    ensures s != p.activeSegment ==> s.CurrentSize >= 10_485_760
    ensures s.msgs != [] ==> Encodable(s.msgs[|s.msgs| - 1])
                             && s.CurrentSize < 10_485_760 + |Encode(s.msgs[|s.msgs| - 1])|
  {
    hide Chain, Encode;
    var segs := p.Segments();
    var i :| 0 <= i < |segs| && segs[i] == s;
    assert SizedPart(Parts(segs)[i], i < |segs| - 1) && Parts(segs)[i] == PartOf(s);
    assert s.Valid();
  }

  /** After an append that opened a new segment file and failed to write to it, the last record of the
      log lies in a closed segment, and rolling it back is refused although it is the last one. */
  method FailedRotationRefusesRollback(p: PartitionProcessor, timestamp: int, payload: seq<Byte>)
    returns (entry: EntryResult, r: InvalidateResult)
    requires p.Valid() && p.state == PartitionActive && p.nextOffset <= LAST_OFFSET && IsInt64(timestamp)
    requires p.activeSegment.CurrentSize >= MAX_SEGMENT_SIZE
    modifies p, p.activeSegment
    ensures entry == EntryFailed && r == InvalidateInClosedSegment
    ensures p.Valid() && p.View() == old(p.View()) && p.recs != [] && !p.LastIsActive()
    ensures InvalidateOutcomeOf(p.View(), p.nextOffset - 1) == RolledBack
  {
    hide PartitionProcessor.Sized, PartitionProcessor.Disk, PartitionProcessor.Snapshot, Recovers, AfterAttempt, AfterCut,
         Stored, BuildBuffer, Chain, AllValid, OnDisk;
    ActiveBounds(p);
    FullSegmentHasRecords(p.activeSegment);
    entry := p.AppendEntry(p.nextOffset, timestamp, payload, AppendFaults(false, ShortWrite(0, true)));
    DiskOfValid(p);
    ActiveBounds(p);
    r := p.InvalidateOffset(p.nextOffset - 1, NoTruncateFault);
    DiskOfValid(p);
  }
}
