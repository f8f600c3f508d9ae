/** A consumer that reads history and then follows the live log, while the log is appended to,
    rolled back and trimmed between any two of its critical sections. */
module Stream {
  import opened Log
  import opened SegmentChain
  import opened Partition

  /** What one locked section of the stream loop does for a cursor. */
  datatype PollOutcome = Waiting | JumpedToBase | Got(msg: Message)

  function PollOf(l: Log<Message>, cursor: nat): PollOutcome {
    if cursor >= l.Next() then Waiting
    else if cursor < l.base then JumpedToBase
    else Got(l.recs[cursor - l.base])
  }

  /** One locked section of the stream loop. */
  method Poll(p: PartitionProcessor, cursor: nat) returns (outcome: PollOutcome)
    requires p.Valid()
    ensures outcome == PollOf(p.View(), cursor)
    ensures outcome == Waiting <==> p.nextOffset <= cursor
    ensures outcome == JumpedToBase <==> cursor < p.nextOffset && cursor < p.baseOffset
    ensures p.baseOffset <= cursor < p.nextOffset ==> outcome == Got(p.recs[cursor - p.baseOffset])
  {
    hide Chain, AllValid;
    if cursor >= p.nextOffset {
      return Waiting;
    }
    var msg := p.ReadOne(cursor);
    if msg.None? {
      return JumpedToBase;
    }
    return Got(msg.value);
  }

  /** Where the consumer is: before its request, between the two locked sections of readFrom, or in
      the stream, where it may have read a message that it has not handed over yet. */
  datatype Phase = Asked | Bounded(endOffset: nat) | Streaming(cursor: nat, pending: Option<Message>)

  datatype State = State(log: Log<Message>, start: nat, phase: Phase, delivered: seq<Message>)

  datatype Step =
    | Append(msg: Message)
    | Rollback
    | Retain(base: nat)
    | ReadBounds
    | ReadHistory
    | PollLog
    | Deliver

  predicate Enabled(s: State, step: Step) {
    match step
    case Append(m) => m.offset == s.log.Next()
    case Rollback => s.log.recs != []
    case Retain(base) => s.log.base <= base <= s.log.Next()
    case ReadBounds => s.phase.Asked? && s.log.base <= s.start
    case ReadHistory => s.phase.Bounded?
    case PollLog => s.phase.Streaming? && s.phase.pending.None? && !PollOf(s.log, s.phase.cursor).Waiting?
    case Deliver => s.phase.Streaming? && s.phase.pending.Some?
  }

  function History(s: State): seq<Message>
    requires s.phase.Bounded?
  {
    var hi := ReadLimit(s.log, s.start, s.phase.endOffset, 0, true);
    if s.log.base <= s.start < hi then Slice(s.log, s.start, hi) else []
  }

  function Apply(s: State, step: Step): State
    requires Enabled(s, step)
  {
    match step
    case Append(m) => s.(log := Log(s.log.base, s.log.recs + [m]))
    case Rollback => s.(log := Log(s.log.base, s.log.recs[..|s.log.recs| - 1]))
    case Retain(base) => s.(log := Log(base, s.log.recs[base - s.log.base..]))
    case ReadBounds => s.(phase := Bounded(s.log.Next()))
    case ReadHistory =>
      s.(phase := Streaming(s.start + |History(s)|, None), delivered := s.delivered + History(s))
    case PollLog =>
      (match PollOf(s.log, s.phase.cursor)
       case JumpedToBase => s.(phase := Streaming(s.log.base, None))
       case Got(m) => s.(phase := Streaming(s.phase.cursor, Some(m)))
       case Waiting => s)
    case Deliver =>
      s.(phase := Streaming(s.phase.cursor + 1, None), delivered := s.delivered + [s.phase.pending.value])
  }

  ghost predicate Init(s: State) {
    s.phase == Asked && s.delivered == [] && Consecutive(s.log.base, s.log.recs)
  }

  ghost predicate Run(states: seq<State>, steps: seq<Step>) {
    && |states| == |steps| + 1
    && Init(states[0])
    && forall i :: 0 <= i < |steps| ==> RunsStep(states, steps, i)
  }

  ghost predicate RunsStep(states: seq<State>, steps: seq<Step>, i: nat)
    requires |states| == |steps| + 1 && i < |steps|
  {
    Enabled(states[i], steps[i]) && states[i + 1] == Apply(states[i], steps[i])
  }

  predicate Holds(l: Log<Message>, m: Message) {
    l.base <= m.offset < l.Next() && l.recs[m.offset - l.base] == m
  }

  /** At some moment up to state i the log held `m` at its offset. */
  ghost predicate WasInLog(states: seq<State>, i: nat, m: Message)
    requires i < |states|
  {
    exists j :: 0 <= j <= i && Holds(states[j].log, m)
  }

  /** Up to state i retention had moved the base past `offset`. */
  ghost predicate WasTrimmed(states: seq<State>, i: nat, offset: nat)
    requires i < |states|
  {
    exists j :: 0 <= j <= i && offset < states[j].log.base
  }

  ghost predicate Delivers(s: State, offset: nat) {
    exists k :: 0 <= k < |s.delivered| && s.delivered[k].offset == offset
  }

  /** The offset below which everything has been dealt with. */
  function Position(s: State): nat {
    if s.phase.Streaming? then s.phase.cursor else s.start
  }

  ghost predicate Increasing(ms: seq<Message>) {
    forall a, b :: 0 <= a < b < |ms| ==> ms[a].offset < ms[b].offset
  }

  ghost predicate Seamless(states: seq<State>, i: nat)
    requires i < |states|
  {
    var s := states[i];
    && Increasing(s.delivered)
    && (forall k :: 0 <= k < |s.delivered| ==> s.start <= s.delivered[k].offset < Position(s))
    && (forall k :: 0 <= k < |s.delivered| ==> WasInLog(states, i, s.delivered[k]))
    && (forall offset :: s.start <= offset < Position(s) ==> Delivers(s, offset) || WasTrimmed(states, i, offset))
  }

  ghost predicate Inv(states: seq<State>, i: nat)
    requires i < |states|
  {
    var s := states[i];
    && Consecutive(s.log.base, s.log.recs)
    && (!s.phase.Streaming? ==> s.delivered == [])
    && (s.phase.Streaming? ==> s.start <= s.phase.cursor)
    && (s.phase.Streaming? && s.phase.pending.Some? ==>
          s.phase.pending.value.offset == s.phase.cursor && WasInLog(states, i, s.phase.pending.value))
    && Seamless(states, i)
  }

  lemma Carries(states: seq<State>, i: nat)
    requires i + 1 < |states|
    ensures forall m :: WasInLog(states, i, m) ==> WasInLog(states, i + 1, m)
    ensures forall offset :: WasTrimmed(states, i, offset) ==> WasTrimmed(states, i + 1, offset)
  {
  }

  /** Steps of the log do not change what the consumer has done. */
  lemma LogStepKeeps(states: seq<State>, i: nat, step: Step)
    requires i + 1 < |states| && Inv(states, i) && Enabled(states[i], step)
    requires step.Append? || step.Rollback? || step.Retain?
    requires states[i + 1] == Apply(states[i], step)
    ensures Inv(states, i + 1)
  {
    Carries(states, i);
    var s, s' := states[i], states[i + 1];
    forall offset | s'.start <= offset < Position(s') ensures Delivers(s', offset) || WasTrimmed(states, i + 1, offset) {
      if Delivers(s, offset) {
        var k :| 0 <= k < |s.delivered| && s.delivered[k].offset == offset;
        assert s'.delivered[k].offset == offset;
      }
    }
  }

  lemma HistoryIsSlice(s: State)
    requires s.phase.Bounded? && Consecutive(s.log.base, s.log.recs)
    ensures forall k :: 0 <= k < |History(s)| ==> History(s)[k].offset == s.start + k && Holds(s.log, History(s)[k])
  {
  }

  lemma HistoryKeeps(states: seq<State>, i: nat)
    requires i + 1 < |states| && Inv(states, i) && Enabled(states[i], ReadHistory)
    requires states[i + 1] == Apply(states[i], ReadHistory)
    ensures Inv(states, i + 1)
  {
    hide History, Holds;
    var s, s' := states[i], states[i + 1];
    HistoryIsSlice(s);
    assert s'.delivered == History(s) && s'.log == s.log;
    forall k | 0 <= k < |s'.delivered| ensures WasInLog(states, i + 1, s'.delivered[k]) {
      assert Holds(states[i].log, s'.delivered[k]);
    }
    forall offset | s'.start <= offset < Position(s') ensures Delivers(s', offset) {
      assert s'.delivered[offset - s.start].offset == offset;
    }
  }

  lemma PollKeeps(states: seq<State>, i: nat)
    requires i + 1 < |states| && Inv(states, i) && Enabled(states[i], PollLog)
    requires states[i + 1] == Apply(states[i], PollLog)
    ensures Inv(states, i + 1)
  {
    Carries(states, i);
    var s, s' := states[i], states[i + 1];
    if PollOf(s.log, s.phase.cursor).Got? {
      assert Holds(states[i].log, s'.phase.pending.value);
      assert WasInLog(states, i + 1, s'.phase.pending.value);
    }
    forall offset | s'.start <= offset < Position(s') ensures Delivers(s', offset) || WasTrimmed(states, i + 1, offset) {
      if offset < Position(s) {
        if Delivers(s, offset) {
          var k :| 0 <= k < |s.delivered| && s.delivered[k].offset == offset;
          assert s'.delivered[k].offset == offset;
        }
      } else {
        assert offset < states[i].log.base;
      }
    }
  }

  lemma DeliverKeeps(states: seq<State>, i: nat)
    requires i + 1 < |states| && Inv(states, i) && Enabled(states[i], Deliver)
    requires states[i + 1] == Apply(states[i], Deliver)
    ensures Inv(states, i + 1)
  {
    Carries(states, i);
    var s, s' := states[i], states[i + 1];
    var n := |s.delivered|;
    forall offset | s'.start <= offset < Position(s') ensures Delivers(s', offset) || WasTrimmed(states, i + 1, offset) {
      if offset == s.phase.cursor {
        assert s'.delivered[n].offset == offset;
      } else if Delivers(s, offset) {
        var k :| 0 <= k < |s.delivered| && s.delivered[k].offset == offset;
        assert s'.delivered[k].offset == offset;
      }
    }
  }

  lemma {:induction false} InvariantHolds(states: seq<State>, steps: seq<Step>, i: nat)
    requires Run(states, steps) && i < |states|
    ensures Inv(states, i)
  {
    hide Inv, Apply, Enabled;
    if i == 0 {
      StartsSeamless(states);
    } else {
      InvariantHolds(states, steps, i - 1);
      assert RunsStep(states, steps, i - 1);
      match steps[i - 1]
      case ReadHistory => HistoryKeeps(states, i - 1);
      case PollLog => PollKeeps(states, i - 1);
      case Deliver => DeliverKeeps(states, i - 1);
      case ReadBounds => BoundsKeep(states, i - 1);
      case _ => LogStepKeeps(states, i - 1, steps[i - 1]);
    }
  }

  lemma StartsSeamless(states: seq<State>)
    requires states != [] && Init(states[0])
    ensures Inv(states, 0)
  {
  }

  lemma BoundsKeep(states: seq<State>, i: nat)
    requires i + 1 < |states| && Inv(states, i) && Enabled(states[i], ReadBounds)
    requires states[i + 1] == Apply(states[i], ReadBounds)
    ensures Inv(states, i + 1)
  {
  }

  /** History and live stream join seamlessly: in every run, what a consumer has received has strictly
      increasing offsets from its start on, each message is the record that the log held at its
      offset at some moment of the run, and an offset is passed over only if retention had removed
      it, whatever is rolled back and rewritten meanwhile. */
  lemma StreamIsSeamless(states: seq<State>, steps: seq<Step>, i: nat)
    requires Run(states, steps) && i < |states|
    ensures Seamless(states, i)
  {
    InvariantHolds(states, steps, i);
  }

  /** Whatever the partition's own methods do to the log between two sections of a consumer is a step: a
      record more at its end, the last one taken back, or the oldest ones removed. */
  lemma AnyLogChangeIsAStep(s: State, l: Log<Message>)
    requires || (exists m: Message :: m.offset == s.log.Next() && l == Log(s.log.base, s.log.recs + [m]))
             || (s.log.recs != [] && l == Log(s.log.base, s.log.recs[..|s.log.recs| - 1]))
             || (s.log.base <= l.base <= s.log.Next() && l.recs == s.log.recs[l.base - s.log.base..])
    ensures exists step :: Enabled(s, step) && Apply(s, step) == s.(log := l)
  {
    if m: Message :| m.offset == s.log.Next() && l == Log(s.log.base, s.log.recs + [m]) {
      assert Apply(s, Append(m)) == s.(log := l);
    } else if s.log.recs != [] && l == Log(s.log.base, s.log.recs[..|s.log.recs| - 1]) {
      assert Apply(s, Rollback) == s.(log := l);
    } else {
      assert Apply(s, Retain(l.base)) == s.(log := l);
    }
  }

  // --- A consumer that is left alone ---

  /** `steps` lead from one state to another. */
  ghost predicate Leads(s: State, steps: seq<Step>, t: State)
    decreases |steps|
  {
    if steps == [] then t == s else Enabled(s, steps[0]) && Leads(Apply(s, steps[0]), steps[1..], t)
  }

  lemma FirstStep(s: State, step: Step, steps: seq<Step>, t: State)
    requires Enabled(s, step) && Leads(Apply(s, step), steps, t)
    ensures Leads(s, [step] + steps, t)
  {
    assert ([step] + steps)[1..] == steps;
  }

  /** The records of the log from an offset on, or all that are left if retention has passed it. */
  function From(l: Log<Message>, cursor: nat): seq<Message> {
    if l.Next() <= cursor then [] else if cursor < l.base then l.recs else l.recs[cursor - l.base..]
  }

  lemma OneDelivered(s: State) returns (next: State)
    requires s.phase.Streaming? && s.phase.pending.None? && s.log.base <= s.phase.cursor < s.log.Next()
    ensures Enabled(s, PollLog) && Enabled(Apply(s, PollLog), Deliver)
    ensures next == Apply(Apply(s, PollLog), Deliver)
    ensures next.log == s.log && next.phase == Streaming(s.phase.cursor + 1, None)
    ensures next.delivered + From(s.log, s.phase.cursor + 1) == s.delivered + From(s.log, s.phase.cursor)
  {
    next := Apply(Apply(s, PollLog), Deliver);
  }

  lemma {:induction false} StreamCatchesUp(s: State) returns (steps: seq<Step>, t: State)
    requires s.phase.Streaming? && s.phase.pending.None?
    ensures Leads(s, steps, t) && t.log == s.log
    ensures t.delivered == s.delivered + From(s.log, s.phase.cursor)
    ensures t.phase.Streaming? && t.phase.pending.None? && s.log.Next() <= t.phase.cursor
    decreases s.log.Next() - s.phase.cursor, s.log.base - s.phase.cursor
  {
    var l, cursor := s.log, s.phase.cursor;
    if l.Next() <= cursor {
      steps, t := [], s;
    } else if cursor < l.base {
      steps, t := StreamCatchesUp(Apply(s, PollLog));
      FirstStep(s, PollLog, steps, t);
      steps := [PollLog] + steps;
    } else {
      var next := OneDelivered(s);
      steps, t := StreamCatchesUp(next);
      FirstStep(Apply(s, PollLog), Deliver, steps, t);
      FirstStep(s, PollLog, [Deliver] + steps, t);
      steps := [PollLog] + ([Deliver] + steps);
    }
  }

  lemma HistoryMeans(s: State)
    requires s.phase.Bounded? && s.log.base <= s.start && s.phase.endOffset == s.log.Next()
    ensures History(s) == From(s.log, s.start)
  {
  }

  /** Nothing is held back: over a log that stays as it is, a consumer receives every record from its start
      on, first as history and then from the stream, in which it ends up waiting at the end of the log. */
  lemma ConsumerGetsEverything(s: State) returns (steps: seq<Step>, t: State)
    requires s.phase.Asked? && s.log.base <= s.start
    ensures Leads(s, steps, t) && t.log == s.log && t.delivered == s.delivered + From(s.log, s.start)
    ensures t.phase.Streaming? && t.phase.pending.None? && PollOf(t.log, t.phase.cursor) == Waiting
  {
    var bounded := Apply(s, ReadBounds);
    HistoryMeans(bounded);
    var streaming := Apply(bounded, ReadHistory);
    steps, t := StreamCatchesUp(streaming);
    FirstStep(bounded, ReadHistory, steps, t);
    FirstStep(s, ReadBounds, [ReadHistory] + steps, t);
    steps := [ReadBounds] + ([ReadHistory] + steps);
  }
}
