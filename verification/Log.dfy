/** The replicated log as a value: a run of records that starts at offset `base`.
    The partition (a chain of segment files) is proved against the operations of this
    module, and the replication protocol is a step system over the same operations. */
module Log {
  const TWO_TO_THE_32: nat := 0x1_0000_0000
  const TWO_TO_THE_63: nat := 0x8000_0000_0000_0000
  const TWO_TO_THE_64: nat := 0x1_0000_0000_0000_0000

  /** How many records one FetchLog response carries at most. */
  const BATCH_SIZE: nat := 500

  type Byte = x: int | 0 <= x < 256

  datatype Option<+T> = None | Some(value: T)

  datatype Message = Message(offset: nat, timestamp: int, payload: seq<Byte>)

  /** Records `base`, `base + 1`, ... up to (and excluding) `Next()`. */
  datatype Log<T> = Log(base: nat, recs: seq<T>) {
    function Next(): nat {
      base + |recs|
    }
  }

  ghost predicate Consecutive(base: nat, msgs: seq<Message>) {
    forall k :: 0 <= k < |msgs| ==> msgs[k].offset == base + k
  }

  // --- What each operation of a partition does to its log ---

  datatype EntryOutcome = Applied | Duplicate | NonContiguous

  /** AppendEntry: an offset already written is skipped, a gap is refused. */
  function EntryOutcomeOf<T>(l: Log<T>, offset: nat): EntryOutcome {
    if offset < l.Next() then Duplicate
    else if offset != l.Next() then NonContiguous
    else Applied
  }

  function AfterEntry<T>(l: Log<T>, offset: nat, rec: T): Log<T> {
    if EntryOutcomeOf(l, offset) == Applied then Log(l.base, l.recs + [rec]) else l
  }

  datatype PushOutcome = PushAccepted | PushRejectedNotInSync | PushRejectedGap

  /** TryApplyPush: only an in-sync replica accepts, and only at its own next offset. */
  function PushOutcomeOf<T>(inSync: bool, l: Log<T>, target: nat): PushOutcome {
    if !inSync then PushRejectedNotInSync
    else if target != l.Next() then PushRejectedGap
    else PushAccepted
  }

  function AfterPush<T>(inSync: bool, l: Log<T>, target: nat, rec: T): Log<T> {
    if PushOutcomeOf(inSync, l, target) == PushAccepted then Log(l.base, l.recs + [rec]) else l
  }

  datatype InvalidateOutcome = RolledBack | NothingToRollBack | NotLast

  /** InvalidateOffset: only the last record may be taken back. */
  function InvalidateOutcomeOf<T>(l: Log<T>, target: nat): InvalidateOutcome {
    if l.Next() <= target then NothingToRollBack
    else if l.Next() != target + 1 then NotLast
    else RolledBack
  }

  function AfterInvalidate<T>(l: Log<T>, target: nat): Log<T> {
    if InvalidateOutcomeOf(l, target) == RolledBack && l.recs != []
    then Log(l.base, l.recs[..|l.recs| - 1])
    else l
  }

  /** The records of `l` at offsets lo, lo + 1, ..., hi - 1. */
  function Slice<T>(l: Log<T>, lo: nat, hi: nat): seq<T>
    requires l.base <= lo <= hi <= l.Next()
  {
    l.recs[lo - l.base..hi - l.base]
  }

  /** What a batch read from `from` contains: nothing below the base or past the end. */
  function Batch<T>(l: Log<T>, from: nat, limit: nat): seq<T> {
    if from < l.base || l.Next() <= from then []
    else Slice(l, from, if from + limit < l.Next() then from + limit else l.Next())
  }

  lemma SomeMember(ids: set<int>)
    ensures ids == {} || exists id: int :: id in ids
  {
    if forall id: int :: id !in ids {
      assert ids == {};
    }
  }
}
