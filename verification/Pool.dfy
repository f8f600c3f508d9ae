/** ReadMessages: from a client's start and till positions to one read of a partition. */
module Pool {
  import opened Log
  import opened Codec
  import SegmentChain
  import opened Partition

  datatype Tag = AtValue | FromBeginning | TillEnd

  datatype Offset = Offset(value: nat, tag: Tag)

  /** uint64 subtraction, and the conversion of its result to a signed count. */
  function WrappedDifference(a: nat, b: nat): nat {
    (a - b) % TWO_TO_THE_64
  }

  /** The signed and unsigned conversions of the range arithmetic cancel: the end that the partition
      computes is the requested one, also when the difference wraps or its sign bit is set. */
  lemma RangeConversionsCancel(start: nat, till: nat)
    requires start < TWO_TO_THE_64 && till < TWO_TO_THE_64
    ensures var count := ToSigned(WrappedDifference(till, start));
            && IsInt64(count)
            && (start + ToUnsigned(count)) % TWO_TO_THE_64 == till
            && (count > 0 && start <= till ==> start + count == till)
  {
    var d := WrappedDifference(till, start);
    assert ToUnsigned(ToSigned(d)) == d;
    if start <= till {
      assert d == till - start;
    } else {
      assert d == till - start + TWO_TO_THE_64;
      assert start + d == till + TWO_TO_THE_64;
    }
  }

  /** What the last section is asked for is what the client has asked for. */
  lemma ReadRange(l: Log<Message>, from: nat, to: nat, isStream: bool, next: nat)
    requires from < TWO_TO_THE_64 && to < TWO_TO_THE_64
    ensures var count := ToSigned(WrappedDifference(to, from));
            var end := if isStream then next else to;
            var last := if l.Next() < end then l.Next() else end;
            var hi := ReadLimit(l, from, if isStream then next else (from + ToUnsigned(count)) % TWO_TO_THE_64,
                                count, isStream);
            && IsInt64(count)
            && (from < hi <==> from < last) && (from < last ==> hi == last)
  {
    RangeConversionsCancel(from, to);
  }

  /** The four locked sections of one call, each on the partition as it is at that moment: the first
      offset, the last offset, the bounds and the records. A bounded read returns exactly the records that
      the last section finds in [start, till), a read until the end those up to the end that the third
      has seen, with a stream that goes on from there; the arithmetic is right whatever happens in
      between, even on an empty partition where the last offset underflows. A start below the oldest
      record is refused, and records that go between the last two sections are not returned. */
  method ReadMessages(atFirst: PartitionProcessor, atLast: PartitionProcessor, atBounds: PartitionProcessor,
                      atRead: PartitionProcessor, start: Offset, till: Offset)
    returns (inRange: bool, messages: seq<Message>, streamFrom: Option<nat>)
    requires atFirst.Valid() && atLast.Valid() && atBounds.Valid() && atRead.Valid()
    requires start.value < TWO_TO_THE_64 && till.value < TWO_TO_THE_64
    ensures var from := if start.tag == FromBeginning then atFirst.baseOffset else start.value;
            var to := if till.tag == TillEnd then atBounds.nextOffset else till.value;
            var end := if atRead.nextOffset < to then atRead.nextOffset else to;
            && (inRange <==> atBounds.baseOffset <= from)
            && messages == (if inRange && atRead.baseOffset <= from < end then Slice(atRead.View(), from, end) else [])
            && streamFrom == (if inRange && till.tag == TillEnd then Some(from + |messages|) else None)
  {
    hide SegmentChain.Chain, AllValid, ReadLimit, ToSigned, ToUnsigned, WrappedDifference;
    OffsetsFit(atFirst);
    OffsetsFit(atLast);
    OffsetsFit(atBounds);
    OffsetsFit(atRead);
    var from := start.value;
    if start.tag == FromBeginning {
      from := atFirst.baseOffset;
    }
    var to := till.value;
    var isStream := false;
    if till.tag == TillEnd {
      to := (atLast.nextOffset - 1) % TWO_TO_THE_64;
      isStream := true;
    }
    var count := ToSigned(WrappedDifference(to, from));
    ReadRange(atRead.View(), from, to, isStream, atBounds.nextOffset);
    var ok, endOffset := atBounds.ReadFromBounds(from, count, isStream);
    if !ok {
      return false, [], None;
    }
    var result, currentOffset := atRead.ReadFromRange(from, endOffset, count, isStream);
    ReadIsSlice(atRead.View(), from, endOffset, count, isStream, result);
    return true, result, if isStream then Some(currentOffset) else None;
  }

  lemma OffsetsFit(p: PartitionProcessor)
    requires p.Valid()
    ensures p.baseOffset <= p.nextOffset == p.View().Next() < TWO_TO_THE_64
  {
  }
}
