/** The bytes of one log record, and the scan that rebuilds a segment's index from its file. */
module Codec {
  import opened Log

  // --- Fixed-width big-endian integers ---

  function Pow256(width: nat): nat {
    if width == 0 then 1 else 256 * Pow256(width - 1)
  }

  function PutUint(n: nat, width: nat): (b: seq<Byte>)
    ensures |b| == width
  {
    if width == 0 then [] else PutUint(n / 256, width - 1) + [n % 256]
  }

  function GetUint(b: seq<Byte>): nat {
    if b == [] then 0 else 256 * GetUint(b[..|b| - 1]) + b[|b| - 1]
  }

  lemma {:induction false} UintRoundTrip(n: nat, width: nat)
    requires n < Pow256(width)
    ensures GetUint(PutUint(n, width)) == n
  {
    if width > 0 {
      UintRoundTrip(n / 256, width - 1);
      assert PutUint(n, width)[..width - 1] == PutUint(n / 256, width - 1);
    }
  }

  /** Integers are big-endian: byte k, counted from the end, is the digit that counts 256^k. */
  lemma {:induction false} PutUintIsBigEndian(n: nat, width: nat, k: nat) returns (above: nat, below: nat)
    requires k < width
    ensures n == (256 * above + PutUint(n, width)[width - 1 - k]) * Pow256(k) + below
    ensures below < Pow256(k)
  {
    if k == 0 {
      above, below := n / 256, 0;
    } else {
      above, below := PutUintIsBigEndian(n / 256, width - 1, k - 1);
      var d := PutUint(n, width)[width - 1 - k];
      assert 256 * ((256 * above + d) * Pow256(k - 1)) == (256 * above + d) * Pow256(k);
      below := 256 * below + n % 256;
    }
  }

  lemma WidthLimits()
    ensures Pow256(4) == TWO_TO_THE_32 && Pow256(8) == TWO_TO_THE_64
  {
    assert Pow256(2) == 0x1_0000;
    assert Pow256(4) == 0x1_0000_0000;
    assert Pow256(6) == 0x1_0000_0000_0000;
  }

  /** uint64(x) of a signed 64-bit x, and back. */
  function ToUnsigned(x: int): int {
    if x < 0 then x + TWO_TO_THE_64 else x
  }

  function ToSigned(x: int): int {
    if x >= TWO_TO_THE_63 then x - TWO_TO_THE_64 else x
  }

  predicate IsInt64(x: int) {
    -(TWO_TO_THE_63 as int) <= x < TWO_TO_THE_63
  }

  // --- One record: [4: body size] [8: offset] [8: timestamp] [payload] ---

  /** What a record must satisfy to be written and read back unchanged. */
  predicate Encodable(m: Message) {
    && m.offset < TWO_TO_THE_64
    && IsInt64(m.timestamp)
    && |m.payload| + 20 < TWO_TO_THE_32
  }

  ghost predicate AllEncodable(ms: seq<Message>) {
    forall k :: 0 <= k < |ms| ==> Encodable(ms[k])
  }

  function Encode(m: Message): (b: seq<Byte>)
    requires Encodable(m)
    ensures |b| == 20 + |m.payload|
  {
    PutUint(16 + |m.payload|, 4) + PutUint(m.offset, 8) + PutUint(ToUnsigned(m.timestamp), 8) + m.payload
  }

  /** The buffer that Append builds. Both sizes are 32-bit sums that wrap; a buffer shorter than
      the fixed fields makes the slice expressions panic, and a longer payload is cut to fit. */
  function BuildBuffer(offset: nat, timestamp: int, payload: seq<Byte>): (buf: Option<seq<Byte>>)
    requires IsInt64(timestamp)
    ensures buf.Some? ==> 20 <= |buf.value|
  {
    var msgBodySize := (16 + |payload|) % TWO_TO_THE_32;
    var totalMsgSize := (4 + msgBodySize) % TWO_TO_THE_32;
    if totalMsgSize < 20 then None
    else Some(PutUint(msgBodySize, 4) + PutUint(offset, 8) + PutUint(ToUnsigned(timestamp), 8)
              + payload[..totalMsgSize - 20])
  }

  /** The payload that reaches the file: all of it unless the 32-bit size wrapped. */
  function StoredPayload(payload: seq<Byte>): (p: seq<Byte>)
    ensures p <= payload
    ensures |p| == |payload| || |p| + 16 < TWO_TO_THE_32
  {
    var msgBodySize := (16 + |payload|) % TWO_TO_THE_32;
    if 16 <= msgBodySize then payload[..msgBodySize - 16] else []
  }

  /** The record Append leaves in the file for these arguments. */
  function Stored(offset: nat, timestamp: int, payload: seq<Byte>): Message {
    Message(offset, timestamp, StoredPayload(payload))
  }

  lemma BufferIsEncoding(offset: nat, timestamp: int, payload: seq<Byte>)
    requires offset < TWO_TO_THE_64 && IsInt64(timestamp)
    requires BuildBuffer(offset, timestamp, payload).Some?
    ensures Encodable(Stored(offset, timestamp, payload))
    ensures BuildBuffer(offset, timestamp, payload).value == Encode(Stored(offset, timestamp, payload))
  {
    var body := (16 + |payload|) % TWO_TO_THE_32;
    assert body + 4 < TWO_TO_THE_32;
  }

  /** A record is written, and unchanged, exactly when its payload leaves room for the 20 fixed
      bytes in 32 bits. Longer payloads panic or are cut without an error. */
  lemma StoredUnchangedIff(offset: nat, timestamp: int, payload: seq<Byte>)
    requires offset < TWO_TO_THE_64 && IsInt64(timestamp)
    ensures (BuildBuffer(offset, timestamp, payload).Some? && StoredPayload(payload) == payload)
            <==> |payload| + 20 < TWO_TO_THE_32
  {
    var n := 16 + |payload|;
    if n + 4 < TWO_TO_THE_32 {
      assert n % TWO_TO_THE_32 == n;
      assert payload[..|payload|] == payload;
    } else if n < TWO_TO_THE_32 {
      assert (4 + n) % TWO_TO_THE_32 == 4 + n - TWO_TO_THE_32;
    } else {
      assert n % TWO_TO_THE_32 < n;
      if n % TWO_TO_THE_32 < 16 {
        assert (4 + n % TWO_TO_THE_32) % TWO_TO_THE_32 < 20;
      }
    }
  }

  /** What becomes of a longer payload: the append panics exactly when the wrapped size is below that of
      the fixed fields, and otherwise keeps as much of the payload as its length modulo 2^32 says. */
  lemma OversizedIsCut(offset: nat, timestamp: int, payload: seq<Byte>)
    requires IsInt64(timestamp)
    ensures BuildBuffer(offset, timestamp, payload).None? <==> (|payload| + 20) % TWO_TO_THE_32 < 20
    ensures BuildBuffer(offset, timestamp, payload).Some? ==> StoredPayload(payload) == payload[..|payload| % TWO_TO_THE_32]
  {
    WrappedSum(16, |payload|);
    WrappedSum(20, |payload|);
    var rest, body := |payload| % TWO_TO_THE_32, (16 + |payload|) % TWO_TO_THE_32;
    assert 0 <= rest < TWO_TO_THE_32;
    WrappedSum(4, body);
    assert body < TWO_TO_THE_32 ==> body % TWO_TO_THE_32 == body;
  }

  /** A small number added modulo 2^32. */
  lemma WrappedSum(a: nat, n: nat)
    requires a < TWO_TO_THE_32
    ensures var rest := n % TWO_TO_THE_32;
            (a + n) % TWO_TO_THE_32 == if a + rest < TWO_TO_THE_32 then a + rest else a + rest - TWO_TO_THE_32
  {
  }

  /** The fields of a record and where they lie. */
  lemma RecordLayout(m: Message)
    requires Encodable(m)
    ensures |Encode(m)| == 20 + |m.payload| && Encode(m)[20..] == m.payload
    ensures Encode(m)[0..4] == PutUint(16 + |m.payload|, 4)
    ensures Encode(m)[4..12] == PutUint(m.offset, 8)
    ensures Encode(m)[12..20] == PutUint(if m.timestamp < 0 then TWO_TO_THE_64 + m.timestamp else m.timestamp, 8)
  {
  }

  /** Reading a record that lies at `pos`, whatever surrounds it. */
  datatype ReadResult = Found(msg: Message) | OffsetNotFound | ReadError | ReadPanic

  function ReadAt(f: seq<Byte>, pos: nat): ReadResult {
    if |f| < pos + 4 then ReadError
    else
      var size := GetUint(f[pos..pos + 4]);
      if |f| < pos + 4 + size then ReadError
      else if size < 16 then ReadPanic
      else Found(Message(GetUint(f[pos + 4..pos + 12]),
                         ToSigned(GetUint(f[pos + 12..pos + 20])),
                         f[pos + 20..pos + 4 + size]))
  }

  lemma FieldsOfEncoding(m: Message)
    requires Encodable(m)
    ensures GetUint(Encode(m)[0..4]) == 16 + |m.payload|
    ensures GetUint(Encode(m)[4..12]) == m.offset
    ensures ToSigned(GetUint(Encode(m)[12..20])) == m.timestamp
    ensures Encode(m)[20..] == m.payload
  {
    WidthLimits();
    UintRoundTrip(16 + |m.payload|, 4);
    UintRoundTrip(m.offset, 8);
    UintRoundTrip(ToUnsigned(m.timestamp), 8);
    var b := Encode(m);
    assert b[0..4] == PutUint(16 + |m.payload|, 4);
    assert b[4..12] == PutUint(m.offset, 8);
    assert b[12..20] == PutUint(ToUnsigned(m.timestamp), 8);
  }

  /** Round trip: a record read at its position is the record written, in any file around it. */
  lemma ReadBack(before: seq<Byte>, m: Message, after: seq<Byte>)
    requires Encodable(m)
    ensures ReadAt(before + Encode(m) + after, |before|) == Found(m)
  {
    FieldsOfEncoding(m);
    var f, p := before + Encode(m) + after, |before|;
    assert f[p..p + 4] == Encode(m)[0..4];
    assert f[p + 4..p + 12] == Encode(m)[4..12];
    assert f[p + 12..p + 20] == Encode(m)[12..20];
    assert f[p + 20..p + 20 + |m.payload|] == Encode(m)[20..];
  }

  // --- A file of records ---

  function EncodeAll(ms: seq<Message>): seq<Byte>
    requires AllEncodable(ms)
  {
    if ms == [] then [] else EncodeAll(ms[..|ms| - 1]) + Encode(ms[|ms| - 1])
  }

  /** Where record k of the file starts. */
  function Position(ms: seq<Message>, k: nat): nat
    requires k <= |ms| && AllEncodable(ms)
  {
    |EncodeAll(ms[..k])|
  }

  /** The index of a file of records: offset to position. */
  function IndexOf(base: nat, ms: seq<Message>): map<nat, nat>
    requires AllEncodable(ms)
  {
    if ms == [] then map[]
    else
      var front := ms[..|ms| - 1];
      IndexOf(base, front)[base + |front| := |EncodeAll(front)|]
  }

  lemma {:induction false} IndexLookup(base: nat, ms: seq<Message>, o: nat)
    requires AllEncodable(ms)
    ensures o in IndexOf(base, ms) <==> base <= o < base + |ms|
    ensures o in IndexOf(base, ms) ==> IndexOf(base, ms)[o] == Position(ms, o - base)
  {
    if ms != [] {
      var front := ms[..|ms| - 1];
      IndexLookup(base, front, o);
      if base <= o < base + |front| {
        assert front[..o - base] == ms[..o - base];
      }
    }
  }

  lemma {:induction false} EncodeSplit(ms: seq<Message>, k: nat)
    requires AllEncodable(ms) && k < |ms|
    ensures EncodeAll(ms[..k + 1]) == EncodeAll(ms[..k]) + Encode(ms[k])
    ensures EncodeAll(ms[..k]) + Encode(ms[k]) <= EncodeAll(ms)
    decreases |ms|
  {
    assert ms[..k + 1][..k] == ms[..k];
    if k + 1 == |ms| {
      assert ms[..k + 1] == ms;
    } else {
      var front := ms[..|ms| - 1];
      EncodeSplit(front, k);
      assert front[..k] == ms[..k] && front[..k + 1] == ms[..k + 1];
    }
  }

  lemma EncodeSnoc(ms: seq<Message>, m: Message)
    requires AllEncodable(ms) && Encodable(m)
    ensures AllEncodable(ms + [m])
    ensures EncodeAll(ms + [m]) == EncodeAll(ms) + Encode(m)
  {
    assert (ms + [m])[..|ms|] == ms;
  }

  /** The bytes around record k of a file. */
  lemma Surroundings(ms: seq<Message>, k: nat, tail: seq<Byte>) returns (after: seq<Byte>)
    requires AllEncodable(ms) && k < |ms|
    ensures EncodeAll(ms) + tail == EncodeAll(ms[..k]) + Encode(ms[k]) + after
    ensures Position(ms, k + 1) == Position(ms, k) + |Encode(ms[k])|
  {
    EncodeSplit(ms, k);
    var n := Position(ms, k + 1);
    after := EncodeAll(ms)[n..] + tail;
    assert EncodeAll(ms) == EncodeAll(ms)[..n] + EncodeAll(ms)[n..];
    assert EncodeAll(ms)[..n] == EncodeAll(ms[..k]) + Encode(ms[k]);
  }

  /** Every record of a file, followed by anything, reads back as written. */
  lemma ReadRecord(ms: seq<Message>, k: nat, tail: seq<Byte>)
    requires AllEncodable(ms) && k < |ms|
    ensures ReadAt(EncodeAll(ms) + tail, Position(ms, k)) == Found(ms[k])
  {
    var after := Surroundings(ms, k, tail);
    ReadBack(EncodeAll(ms[..k]), ms[k], after);
  }

  // --- recoverIndex ---

  datatype Recovered = Recovered(index: map<nat, nat>, next: nat, end: nat)

  /** The three tests that recoverIndex makes before it accepts the record at `pos`. */
  predicate WholeAt(f: seq<Byte>, pos: nat) {
    && pos + 4 <= |f|
    && pos + 4 + GetUint(f[pos..pos + 4]) <= |f|
    && pos + 12 <= |f|
  }

  function Scan(f: seq<Byte>, pos: nat, index: map<nat, nat>, next: nat): Recovered
    decreases |f| - pos
  {
    if !WholeAt(f, pos) then Recovered(index, next, pos)
    else
      var offset := GetUint(f[pos + 4..pos + 12]);
      Scan(f, pos + 4 + GetUint(f[pos..pos + 4]), index[offset := pos], (offset + 1) % TWO_TO_THE_64)
  }

  /** The records of the whole prefix of a file. */
  function Parse(f: seq<Byte>, pos: nat): seq<Message>
    decreases |f| - pos
  {
    if !WholeAt(f, pos) then []
    else
      var m := if ReadAt(f, pos).Found? then ReadAt(f, pos).msg
               else Message(GetUint(f[pos + 4..pos + 12]), 0, []);
      [m] + Parse(f, pos + 4 + GetUint(f[pos..pos + 4]))
  }

  /** A tail that holds no whole record: fewer bytes than its own header announces. */
  predicate Torn(tail: seq<Byte>) {
    |tail| < 4 || |tail| < 4 + GetUint(tail[..4])
  }

  lemma StrictPrefixIsTorn(m: Message, tail: seq<Byte>)
    requires Encodable(m) && tail < Encode(m)
    ensures Torn(tail)
  {
    FieldsOfEncoding(m);
    if |tail| >= 4 {
      assert tail[..4] == Encode(m)[0..4];
    }
  }

  lemma StopsAtTornTail(front: seq<Byte>, tail: seq<Byte>)
    requires Torn(tail)
    ensures !WholeAt(front + tail, |front|)
  {
    if |tail| >= 4 {
      assert (front + tail)[|front|..|front| + 4] == tail[..4];
    }
  }

  lemma WholeRecordAt(before: seq<Byte>, m: Message, after: seq<Byte>)
    requires Encodable(m)
    ensures var f, pos := before + Encode(m) + after, |before|;
            && WholeAt(f, pos)
            && GetUint(f[pos + 4..pos + 12]) == m.offset
            && GetUint(f[pos..pos + 4]) == 16 + |m.payload|
  {
    FieldsOfEncoding(m);
    var f, p := before + Encode(m) + after, |before|;
    assert f[p..p + 4] == Encode(m)[0..4];
    assert f[p + 4..p + 12] == Encode(m)[4..12];
  }

  lemma StepsOverRecord(ms: seq<Message>, k: nat, tail: seq<Byte>)
    requires AllEncodable(ms) && k < |ms|
    ensures var f, pos := EncodeAll(ms) + tail, Position(ms, k);
            && WholeAt(f, pos)
            && GetUint(f[pos + 4..pos + 12]) == ms[k].offset
            && pos + 4 + GetUint(f[pos..pos + 4]) == Position(ms, k + 1)
  {
    var after := Surroundings(ms, k, tail);
    WholeRecordAt(EncodeAll(ms[..k]), ms[k], after);
  }

  /** Record `m` lies whole at `pos` and the next one would start at `next`. */
  predicate RecordAt(f: seq<Byte>, pos: nat, m: Message, next: nat) {
    && WholeAt(f, pos)
    && ReadAt(f, pos) == Found(m)
    && GetUint(f[pos + 4..pos + 12]) == m.offset
    && pos + 4 + GetUint(f[pos..pos + 4]) == next
  }

  lemma RecordInFile(ms: seq<Message>, k: nat, tail: seq<Byte>)
    requires AllEncodable(ms) && k < |ms|
    ensures RecordAt(EncodeAll(ms) + tail, Position(ms, k), ms[k], Position(ms, k + 1))
  {
    StepsOverRecord(ms, k, tail);
    ReadRecord(ms, k, tail);
  }

  /** Record k of `ms` lies at `ps[k]`, and `indexes` says what the scan knows when it gets there. */
  predicate ScannedAt(f: seq<Byte>, base: nat, ms: seq<Message>, ps: seq<nat>,
                      indexes: seq<map<nat, nat>>, k: nat)
    requires |ps| == |indexes| == |ms| + 1 && k < |ms|
  {
    && RecordAt(f, ps[k], ms[k], ps[k + 1])
    && indexes[k + 1] == indexes[k][base + k := ps[k]]
  }

  lemma {:induction false} ScanFollows(f: seq<Byte>, base: nat, ms: seq<Message>, ps: seq<nat>,
                                       indexes: seq<map<nat, nat>>, k: nat)
    requires |ps| == |indexes| == |ms| + 1 && k <= |ms|
    requires base + |ms| < TWO_TO_THE_64 && Consecutive(base, ms) && !WholeAt(f, ps[|ms|])
    requires forall i :: 0 <= i < |ms| ==> ScannedAt(f, base, ms, ps, indexes, i)
    ensures Scan(f, ps[k], indexes[k], base + k) == Recovered(indexes[|ms|], base + |ms|, ps[|ms|])
    decreases |ms| - k
  {
    if k < |ms| {
      assert ScannedAt(f, base, ms, ps, indexes, k);
      ScanStep(f, ps[k], ms[k], ps[k + 1], indexes[k]);
      ScanFollows(f, base, ms, ps, indexes, k + 1);
    }
  }

  lemma ScanStep(f: seq<Byte>, pos: nat, m: Message, next: nat, index: map<nat, nat>)
    requires RecordAt(f, pos, m, next) && m.offset + 1 < TWO_TO_THE_64
    ensures Scan(f, pos, index, m.offset) == Scan(f, next, index[m.offset := pos], m.offset + 1)
    ensures Parse(f, pos) == [m] + Parse(f, next)
  {
  }

  lemma {:induction false} ParseFollows(f: seq<Byte>, base: nat, ms: seq<Message>, ps: seq<nat>,
                                        indexes: seq<map<nat, nat>>, k: nat)
    requires |ps| == |indexes| == |ms| + 1 && k <= |ms|
    requires base + |ms| < TWO_TO_THE_64 && Consecutive(base, ms) && !WholeAt(f, ps[|ms|])
    requires forall i :: 0 <= i < |ms| ==> ScannedAt(f, base, ms, ps, indexes, i)
    ensures Parse(f, ps[k]) == ms[k..]
    decreases |ms| - k
  {
    if k < |ms| {
      assert ScannedAt(f, base, ms, ps, indexes, k);
      ScanStep(f, ps[k], ms[k], ps[k + 1], indexes[k]);
      ParseFollows(f, base, ms, ps, indexes, k + 1);
    }
  }

  lemma IndexGrows(base: nat, ms: seq<Message>, k: nat)
    requires AllEncodable(ms) && k < |ms|
    ensures IndexOf(base, ms[..k + 1]) == IndexOf(base, ms[..k])[base + k := Position(ms, k)]
  {
    assert ms[..k + 1][..k] == ms[..k];
  }

  /** Torn-write recovery: over whole records followed by a torn one, the scan keeps exactly the
      whole records, ends where they end, and rebuilds their index. */
  lemma RecoverTornFile(base: nat, ms: seq<Message>, tail: seq<Byte>)
    requires AllEncodable(ms) && Consecutive(base, ms) && Torn(tail)
    requires base + |ms| < TWO_TO_THE_64
    ensures Scan(EncodeAll(ms) + tail, 0, map[], base)
            == Recovered(IndexOf(base, ms), base + |ms|, |EncodeAll(ms)|)
    ensures Parse(EncodeAll(ms) + tail, 0) == ms
  {
    var f, n := EncodeAll(ms) + tail, |ms|;
    var ps := seq(n + 1, k requires 0 <= k <= n => Position(ms, k));
    var indexes := seq(n + 1, k requires 0 <= k <= n => IndexOf(base, ms[..k]));
    forall k | 0 <= k < n
      ensures ScannedAt(f, base, ms, ps, indexes, k)
    {
      RecordInFile(ms, k, tail);
      IndexGrows(base, ms, k);
    }
    assert ms[..n] == ms && ms[..0] == [] && ms[0..] == ms;
    StopsAtTornTail(EncodeAll(ms), tail);
    ScanFollows(f, base, ms, ps, indexes, 0);
    ParseFollows(f, base, ms, ps, indexes, 0);
  }

  /** A crash after any number of bytes of an append leaves the old records or the old records
      and the new one, and recovering twice is recovering once. */
  lemma CrashDuringAppend(base: nat, ms: seq<Message>, m: Message, written: nat)
    requires AllEncodable(ms) && Consecutive(base, ms) && Encodable(m) && m.offset == base + |ms|
    requires base + |ms| + 1 < TWO_TO_THE_64
    requires written <= |Encode(m)|
    ensures var f := EncodeAll(ms) + Encode(m)[..written];
            var kept := if written == |Encode(m)| then ms + [m] else ms;
            && Parse(f, 0) == kept
            && var r := Scan(f, 0, map[], base);
            && r.end <= |f|
            && AllEncodable(kept)
            && f[..r.end] == EncodeAll(kept)
            && Scan(f[..r.end], 0, map[], base) == r
  {
    var f := EncodeAll(ms) + Encode(m)[..written];
    if written == |Encode(m)| {
      EncodeSnoc(ms, m);
      assert Encode(m)[..written] == Encode(m);
      assert f == EncodeAll(ms + [m]) + [];
      RecoverTornFile(base, ms + [m], []);
      assert f[..|f|] == f;
    } else {
      StrictPrefixIsTorn(m, Encode(m)[..written]);
      RecoverTornFile(base, ms, Encode(m)[..written]);
      RecoverTornFile(base, ms, []);
      assert f[..|EncodeAll(ms)|] == EncodeAll(ms) == EncodeAll(ms) + [];
    }
  }
}
