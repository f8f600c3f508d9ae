/** One segment file of a partition's log, with its in-memory index. */
module SegmentFile {
  import opened Log
  import opened Codec

  /** What the operating system does to one write followed by fsync. A short write is followed by
      an attempt to cut the file back, which may fail too. */
  datatype WriteFault = NoWriteFault | ShortWrite(written: nat, cutBack: bool) | SyncFailed

  datatype AppendResult = Written(size: nat) | WriteError | Panicked

  datatype TruncateFault = NoTruncateFault | TruncateFailed | TruncateSyncFailed

  datatype TruncateResult = Truncated | TruncateError

  /** The bytes that one append leaves in the file. */
  function BytesLeft(buf: Option<seq<Byte>>, fault: WriteFault): (left: seq<Byte>)
    requires buf.Some? ==> 0 < |buf.value|
  {
    match buf
    case None => []
    case Some(b) =>
      match fault
      case ShortWrite(written, cutBack) =>
        if cutBack then [] else if written < |b| then b[..written] else b[..|b| - 1]
      case SyncFailed => b
      case NoWriteFault => b
  }

  /** A failed sync leaves the whole buffer, a short write what has been written unless it could be cut
      off, and a buffer that cannot be built nothing. */
  lemma BytesLeftMeans(buf: Option<seq<Byte>>, fault: WriteFault)
    requires buf.Some? ==> 0 < |buf.value|
    ensures buf.None? ==> BytesLeft(buf, fault) == []
    ensures buf.Some? && (fault.SyncFailed? || fault.NoWriteFault?) ==> BytesLeft(buf, fault) == buf.value
    ensures buf.Some? && fault.ShortWrite? && fault.cutBack ==> BytesLeft(buf, fault) == []
    ensures buf.Some? && fault.ShortWrite? && !fault.cutBack ==>
              && BytesLeft(buf, fault) < buf.value
              && |BytesLeft(buf, fault)| == if fault.written < |buf.value| then fault.written else |buf.value| - 1
  {
  }

  /** `bytes` is what a log of `ms` leaves on disk, up to a torn last write. */
  ghost predicate HoldsRecords(base: nat, bytes: seq<Byte>, ms: seq<Message>) {
    && AllEncodable(ms) && Consecutive(base, ms) && base + |ms| < TWO_TO_THE_64
    && EncodeAll(ms) <= bytes
    && Torn(bytes[|EncodeAll(ms)|..])
  }

  class Segment {
    const BaseOffset: nat
    var file: seq<Byte>
    var open: bool
    var NextOffset: nat
    var index: map<nat, nat>
    var CurrentSize: nat
    /** The records of the segment, first one at BaseOffset. */
    ghost var msgs: seq<Message>

    ghost predicate Valid()
      reads this
    {
      && open
      && AllEncodable(msgs) && Consecutive(BaseOffset, msgs)
      && file == EncodeAll(msgs)
      && CurrentSize == |file|
      && NextOffset == BaseOffset + |msgs| < TWO_TO_THE_64
      && index == IndexOf(BaseOffset, msgs)
    }

    /** NewSegment: opens the file `bytes` (empty when it is created here) and recovers its index. */
    constructor (baseOffset: nat, bytes: seq<Byte>)
      ensures BaseOffset == baseOffset && open
      ensures var r := Scan(bytes, 0, map[], baseOffset);
              index == r.index && NextOffset == r.next && CurrentSize == r.end <= |bytes| && file == bytes[..r.end]
      ensures msgs == Parse(bytes, 0)
      ensures forall ms :: HoldsRecords(baseOffset, bytes, ms) ==> Valid() && msgs == ms
    {
      BaseOffset := baseOffset;
      file := bytes;
      open := true;
      NextOffset := baseOffset;
      index := map[];
      CurrentSize := |bytes|;
      msgs := Parse(bytes, 0);
      new;
      if CurrentSize > 0 {
        RecoverIndex();
      }
      forall ms | HoldsRecords(baseOffset, bytes, ms) ensures Valid() && msgs == ms {
        var n := |EncodeAll(ms)|;
        assert bytes == EncodeAll(ms) + bytes[n..];
        RecoverTornFile(baseOffset, ms, bytes[n..]);
      }
    }

    /** Walks the file record by record and cuts off what follows the last whole one. */
    method RecoverIndex()
      requires CurrentSize == |file| && index == map[] && NextOffset == BaseOffset
      modifies this`file, this`index, this`NextOffset, this`CurrentSize
      ensures var r := Scan(old(file), 0, map[], BaseOffset);
              index == r.index && NextOffset == r.next && CurrentSize == r.end <= |old(file)|
              && file == old(file)[..r.end]
    {
      var currentPos := 0;
      while currentPos < CurrentSize
        invariant currentPos <= CurrentSize == |file| && file == old(file)
        invariant Scan(file, 0, map[], BaseOffset) == Scan(file, currentPos, index, NextOffset)
        decreases CurrentSize - currentPos
      {
        if |file| < currentPos + 4 {
          break;
        }
        var totalRecordSize := 4 + GetUint(file[currentPos..currentPos + 4]);
        if currentPos + totalRecordSize > CurrentSize {
          break;
        }
        if |file| < currentPos + 12 {
          break;
        }
        var msgOffset := GetUint(file[currentPos + 4..currentPos + 12]);
        index := index[msgOffset := currentPos];
        NextOffset := (msgOffset + 1) % TWO_TO_THE_64;
        currentPos := currentPos + totalRecordSize;
      }
      assert !WholeAt(file, currentPos);
      if currentPos < CurrentSize {
        file := file[..currentPos];
        CurrentSize := currentPos;
      }
    }

    /** Appends one record and syncs it. The segment stays consistent with its file exactly when
        no bytes of a failed write are left behind; whatever happens, the file holds the old records
        up to a torn tail, or those and the new one. A failed sync leaves the whole record in the
        file although the call reports an error. */
    method Append(offset: nat, timestamp: int, payload: seq<Byte>, fault: WriteFault) returns (r: AppendResult)
      requires Valid() && offset == NextOffset && IsInt64(timestamp)
      modifies this
      ensures var buf := BuildBuffer(offset, timestamp, payload);
              && r.Written? == (buf.Some? && fault.NoWriteFault?)
              && r.Panicked? == buf.None?
              && (r.Written? ==> buf.Some? && r.size == |buf.value|)
              && file == old(file) + BytesLeft(buf, fault)
              && (offset + 1 < TWO_TO_THE_64 ==>
                    (Valid() <==> r.Written? || BytesLeft(buf, fault) == []))
              && (offset + 1 < TWO_TO_THE_64 ==>
                    HoldsRecords(BaseOffset, file,
                                 if buf.Some? && BytesLeft(buf, fault) == buf.value
                                 then old(msgs) + [Stored(offset, timestamp, payload)]
                                 else old(msgs)))
      ensures msgs == if r.Written? then old(msgs) + [Stored(offset, timestamp, payload)] else old(msgs)
      ensures CurrentSize == if r.Written? then |file| else old(CurrentSize)
    {
      hide EncodeAll, IndexOf, BuildBuffer, Parse, StoredPayload;
      var buf := BuildBuffer(offset, timestamp, payload);
      if buf.None? {
        AppendedFile(BaseOffset, msgs, timestamp, payload, fault);
        return Panicked;
      }
      AppendedFile(BaseOffset, msgs, timestamp, payload, fault);
      var pos := CurrentSize;
      match fault {
        case ShortWrite(written, cutBack) =>
          var n := if written < |buf.value| then written else |buf.value| - 1;
          file := file + buf.value[..n];
          if n > 0 && cutBack {
            file := file[..pos];
          }
          r := WriteError;
        case SyncFailed =>
          file := file + buf.value;
          r := WriteError;
        case NoWriteFault =>
          file := file + buf.value;
          index := index[offset := pos];
          CurrentSize := CurrentSize + |buf.value|;
          NextOffset := (offset + 1) % TWO_TO_THE_64;
          msgs := msgs + [Stored(offset, timestamp, payload)];
          r := Written(|buf.value|);
      }
    }

    /** Takes back every record at `offset` and above. */
    method TruncateFrom(offset: nat, fault: TruncateFault) returns (r: TruncateResult)
      requires Valid()
      modifies this
      ensures r.Truncated? == (offset >= old(NextOffset) || (BaseOffset <= offset && fault.NoTruncateFault?))
      ensures var kept := if offset >= old(NextOffset) || offset < BaseOffset || fault.TruncateFailed?
                          then old(msgs) else old(msgs)[..offset - BaseOffset];
              && AllEncodable(kept) && file == EncodeAll(kept) && HoldsRecords(BaseOffset, file, kept)
              && msgs == if r.Truncated? then kept else old(msgs)
      ensures Valid() <==> (r.Truncated? || offset < BaseOffset || fault.TruncateFailed?)
    {
      hide EncodeAll, IndexOf;
      WholeFile(BaseOffset, msgs);
      if offset >= NextOffset {
        return Truncated;
      }
      if offset < BaseOffset {
        return TruncateError;
      }
      IndexLookup(BaseOffset, msgs, offset);
      if offset !in index {
        return TruncateError;
      }
      var pos := index[offset];
      if fault.TruncateFailed? {
        return TruncateError;
      }
      ghost var k := offset - BaseOffset;
      TruncatedFile(BaseOffset, msgs, k);
      WholeFile(BaseOffset, msgs[..k]);
      file := file[..pos];
      if fault.TruncateSyncFailed? {
        return TruncateError;
      }
      index := map o | o in index && o < offset :: index[o];
      CurrentSize := pos;
      NextOffset := offset;
      msgs := msgs[..k];
      return Truncated;
    }

    /** Reads one record through the index. */
    method Read(offset: nat) returns (r: ReadResult)
      ensures Valid() ==> r == if BaseOffset <= offset < NextOffset then Found(msgs[offset - BaseOffset])
                               else OffsetNotFound
    {
      if offset !in index {
        if Valid() {
          IndexLookup(BaseOffset, msgs, offset);
        }
        return OffsetNotFound;
      }
      if Valid() {
        IndexLookup(BaseOffset, msgs, offset);
        ReadRecord(msgs, offset - BaseOffset, []);
        assert file == EncodeAll(msgs) + [];
      }
      if !open {
        return ReadError;
      }
      return ReadAt(file, index[offset]);
    }

    method Close()
      modifies this`open
      ensures !open
    {
      open := false;
    }
  }

  lemma AppendedFile(base: nat, ms: seq<Message>, timestamp: int, payload: seq<Byte>, fault: WriteFault)
    requires AllEncodable(ms) && Consecutive(base, ms) && base + |ms| < TWO_TO_THE_64 && IsInt64(timestamp)
    ensures var offset := base + |ms|;
            var buf, rec := BuildBuffer(offset, timestamp, payload), Stored(offset, timestamp, payload);
            && (buf.Some? ==>
                  && 20 <= |buf.value|
                  && AllEncodable(ms + [rec]) && Consecutive(base, ms + [rec])
                  && EncodeAll(ms + [rec]) == EncodeAll(ms) + buf.value
                  && IndexOf(base, ms + [rec]) == IndexOf(base, ms)[offset := |EncodeAll(ms)|])
            && (offset + 1 < TWO_TO_THE_64 ==>
                  HoldsRecords(base, EncodeAll(ms) + BytesLeft(buf, fault),
                               if buf.Some? && BytesLeft(buf, fault) == buf.value then ms + [rec] else ms))
  {
    hide Encode, EncodeAll, IndexOf, BuildBuffer, StoredPayload, GetUint;
    var offset := base + |ms|;
    var buf, rec := BuildBuffer(offset, timestamp, payload), Stored(offset, timestamp, payload);
    var left := BytesLeft(buf, fault);
    var f := EncodeAll(ms) + left;
    assert f[|EncodeAll(ms)|..] == left;
    if buf.Some? {
      BufferIsEncoding(offset, timestamp, payload);
      EncodeSnoc(ms, rec);
      IndexSnoc(base, ms, rec);
      if left == buf.value {
        assert f == EncodeAll(ms + [rec]) && f[|f|..] == [];
      } else {
        assert left < Encode(rec);
        StrictPrefixIsTorn(rec, left);
      }
    }
  }

  lemma IndexSnoc(base: nat, ms: seq<Message>, m: Message)
    requires AllEncodable(ms) && Encodable(m) && AllEncodable(ms + [m])
    ensures IndexOf(base, ms + [m]) == IndexOf(base, ms)[base + |ms| := |EncodeAll(ms)|]
  {
    assert (ms + [m])[..|ms|] == ms;
  }

  lemma WholeFile(base: nat, ms: seq<Message>)
    requires AllEncodable(ms) && Consecutive(base, ms) && base + |ms| < TWO_TO_THE_64
    ensures HoldsRecords(base, EncodeAll(ms), ms)
  {
    assert EncodeAll(ms)[|EncodeAll(ms)|..] == [];
  }

  lemma TruncatedFile(base: nat, ms: seq<Message>, k: nat)
    requires AllEncodable(ms) && k < |ms|
    ensures base + k in IndexOf(base, ms) && IndexOf(base, ms)[base + k] == |EncodeAll(ms[..k])| < |EncodeAll(ms)|
    ensures EncodeAll(ms)[..|EncodeAll(ms[..k])|] == EncodeAll(ms[..k])
    ensures IndexOf(base, ms[..k]) == map o | o in IndexOf(base, ms) && o < base + k :: IndexOf(base, ms)[o]
  {
    IndexLookup(base, ms, base + k);
    EncodeSplit(ms, k);
    IndexOfPrefix(base, ms, k);
  }

  lemma IndexOfPrefix(base: nat, ms: seq<Message>, k: nat)
    requires AllEncodable(ms) && k <= |ms|
    ensures IndexOf(base, ms[..k]) == map o | o in IndexOf(base, ms) && o < base + k :: IndexOf(base, ms)[o]
  {
    var whole, front := IndexOf(base, ms), IndexOf(base, ms[..k]);
    forall o: nat
      ensures o in front <==> o in whole && o < base + k
      ensures o in front ==> front[o] == whole[o]
    {
      IndexLookup(base, ms, o);
      IndexLookup(base, ms[..k], o);
      if base <= o < base + k {
        assert ms[..k][..o - base] == ms[..o - base];
      }
    }
  }
}
