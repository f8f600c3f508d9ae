/** The replication protocol of one partition as a step system: any number of produce calls on the
    leader, the follower logs, and a network that delays, reorders and loses messages. What a
    message does to a log is what the partition's methods do to theirs. */
module Replication {
  import opened Log

  type NodeId = int
  type CallId = nat

  /** A record, together with the produce call that wrote it. */
  datatype Entry = Entry(call: CallId, msg: Message)

  /** One call of ReplicateAndAppend. */
  datatype Phase = Started | Pushing | Committing | Succeeded | Failed

  datatype Call = Call(phase: Phase, isr: set<NodeId>, target: nat, msg: Message,
                       pushed: set<NodeId>, acked: set<NodeId>)

  /** One FetchLog response that the catch-up loop is applying: the records left to apply, the
      offset of the first of them, and the high watermark it came with. */
  datatype Fetch = NoFetch | Fetched(entries: seq<Entry>, from: nat, highWatermark: nat)

  /** `lastActive`: the last record lies in the active segment file, where a rollback can reach it. */
  datatype Follower = Follower(log: Log<Entry>, inSync: bool, fetch: Fetch, lastActive: bool)

  datatype Envelope = Envelope(call: CallId, node: NodeId)

  /** `isr` are the followers that the leader counts as in sync. */
  datatype State = State(leader: Log<Entry>, followers: map<NodeId, Follower>, isr: set<NodeId>,
                         calls: map<CallId, Call>,
                         pushes: set<Envelope>, acks: set<Envelope>, invalidations: set<Envelope>)

  datatype CommitFault = NoCommitFault | CommitIoError | CommitStopped

  datatype Step =
    | Begin(call: CallId)
    | Push(call: CallId, timestamp: int, payload: seq<Byte>, targets: set<NodeId>)
    | DeliverPush(envelope: Envelope)
    | FailPush(envelope: Envelope)
    | LosePush(envelope: Envelope)
    | DeliverAck(envelope: Envelope)
    | LoseAck(envelope: Envelope)
    | Decide(call: CallId)
    | Commit(call: CallId, fault: CommitFault)
    | DeliverInvalidation(envelope: Envelope, lastActive: bool)
    | LoseInvalidation(envelope: Envelope)
    | StartFetch(node: NodeId)
    | ApplyFetched(node: NodeId)
    | FailFetched(node: NodeId)
    | FinishRound(node: NodeId)
    | AbortFetch(node: NodeId)
    | FollowerCrash(node: NodeId)
    | ForceInSync(node: NodeId)
    | LeaderCrash
    | LeaveIsr(node: NodeId)
    | JoinIsr(node: NodeId)

  predicate Live(k: Call) {
    k.phase.Started? || k.phase.Pushing? || k.phase.Committing?
  }

  /** The follower takes the record of this push. */
  predicate Accepts(s: State, e: Envelope)
    requires e.call in s.calls && e.node in s.followers
  {
    PushOutcomeOf(s.followers[e.node].inSync, s.followers[e.node].log, s.calls[e.call].target) == PushAccepted
  }

  predicate Enabled(s: State, step: Step) {
    match step
    case Begin(c) => c !in s.calls
    case Push(c, _, _, targets) => c in s.calls && s.calls[c].phase.Started? && targets <= s.followers.Keys
    case DeliverPush(e) => e in s.pushes && e.call in s.calls && e.node in s.followers
    case FailPush(e) => e in s.pushes && e.call in s.calls && e.node in s.followers && Accepts(s, e)
    case LosePush(e) => e in s.pushes
    case DeliverAck(e) => e in s.acks && e.call in s.calls
    case LoseAck(e) => e in s.acks
    case Decide(c) => c in s.calls && s.calls[c].phase.Pushing?
    case Commit(c, _) => c in s.calls && s.calls[c].phase.Committing?
    case DeliverInvalidation(e, _) => e in s.invalidations && e.call in s.calls && e.node in s.followers
    case LoseInvalidation(e) => e in s.invalidations
    case StartFetch(n) => n in s.followers && s.followers[n].fetch.NoFetch?
    case ApplyFetched(n) => n in s.followers && s.followers[n].fetch.Fetched? && s.followers[n].fetch.entries != []
    case FailFetched(n) =>
      && n in s.followers && s.followers[n].fetch.Fetched? && s.followers[n].fetch.entries != []
      && EntryOutcomeOf(s.followers[n].log, s.followers[n].fetch.from) == Applied
    case FinishRound(n) => n in s.followers && s.followers[n].fetch.Fetched? && s.followers[n].fetch.entries == []
    case AbortFetch(n) => n in s.followers
    case FollowerCrash(n) => n in s.followers
    case ForceInSync(n) => n in s.followers
    case LeaderCrash => true
    case LeaveIsr(n) => true
    case JoinIsr(n) => n in s.followers
  }

  /** The leader reads the replica set first, and its own next offset in a later step. */
  function AfterBegin(s: State, c: CallId): State {
    s.(calls := s.calls[c := Call(Started, s.isr, s.leader.Next(), Message(s.leader.Next(), 0, []), {}, {})])
  }

  function EnvelopesTo(c: CallId, nodes: set<NodeId>): (es: set<Envelope>)
    ensures forall e :: e in es <==> e.call == c && e.node in nodes
  {
    set n | n in nodes :: Envelope(c, n)
  }

  function PushedCall(s: State, c: CallId, timestamp: int, payload: seq<Byte>, targets: set<NodeId>): Call
    requires c in s.calls
  {
    var target := s.leader.Next();
    s.calls[c].(phase := Pushing, target := target, msg := Message(target, timestamp, payload), pushed := targets)
  }

  /** The pushes go to any of the replicas for which there is a client, in sync or not. */
  function AfterPushes(s: State, c: CallId, timestamp: int, payload: seq<Byte>, targets: set<NodeId>): State
    requires c in s.calls
  {
    s.(calls := s.calls[c := PushedCall(s, c, timestamp, payload, targets)],
       pushes := s.pushes + EnvelopesTo(c, targets))
  }

  /** TryApplyPush on the follower; an accepted record is answered by an ack. */
  function AfterDeliverPush(s: State, e: Envelope): State
    requires e.call in s.calls && e.node in s.followers
  {
    var f, k := s.followers[e.node], s.calls[e.call];
    var log := AfterPush(f.inSync, f.log, k.target, Entry(e.call, k.msg));
    s.(followers := s.followers[e.node := f.(log := log, lastActive := f.lastActive || Accepts(s, e))],
       pushes := s.pushes - {e},
       acks := if Accepts(s, e) then s.acks + {e} else s.acks)
  }

  /** The append opens a new segment file and fails to write to it: the last record is in a closed file. */
  function AfterFailPush(s: State, e: Envelope): State
    requires e.node in s.followers
  {
    s.(followers := s.followers[e.node := s.followers[e.node].(lastActive := false)], pushes := s.pushes - {e})
  }

  /** An ack that arrives after the leader stopped waiting is dropped. */
  function AfterDeliverAck(s: State, e: Envelope): State
    requires e.call in s.calls
  {
    var k := s.calls[e.call];
    s.(acks := s.acks - {e},
       calls := if k.phase.Pushing? then s.calls[e.call := k.(acked := k.acked + {e.node})] else s.calls)
  }

  /** Every in-sync follower of the call must have acked. There is no rollback when one has not. */
  function AfterDecide(s: State, c: CallId): State
    requires c in s.calls
  {
    var k := s.calls[c];
    s.(calls := s.calls[c := k.(phase := if k.isr <= k.acked then Committing else Failed)])
  }

  /** AppendEntry on the leader itself; if it fails, the record is taken back wherever it was sent. */
  function AfterCommit(s: State, c: CallId, fault: CommitFault): State
    requires c in s.calls
  {
    var k := s.calls[c];
    var outcome := EntryOutcomeOf(s.leader, k.target);
    var succeeds := match fault
      case NoCommitFault => outcome != NonContiguous
      case CommitIoError => outcome == Duplicate
      case CommitStopped => false;
    if succeeds then
      s.(leader := AfterEntry(s.leader, k.target, Entry(c, k.msg)),
         calls := s.calls[c := k.(phase := Succeeded)])
    else
      s.(calls := s.calls[c := k.(phase := Failed)],
         invalidations := s.invalidations + EnvelopesTo(c, k.pushed))
  }

  /** InvalidateOffset on the follower: refused when the record lies in a closed segment file. The
      rollback may empty the active one. */
  function AfterDeliverInvalidation(s: State, e: Envelope, lastActive: bool): State
    requires e.call in s.calls && e.node in s.followers
  {
    var f, target := s.followers[e.node], s.calls[e.call].target;
    var reached := InvalidateOutcomeOf(f.log, target) == RolledBack && f.lastActive;
    s.(followers := if reached then s.followers[e.node := f.(log := AfterInvalidate(f.log, target), lastActive := lastActive)]
                    else s.followers,
       invalidations := s.invalidations - {e})
  }

  function SetFollower(s: State, n: NodeId, f: Follower): State {
    s.(followers := s.followers[n := f])
  }

  /** FetchLog on the leader. */
  function FetchFrom(s: State, f: Follower): Fetch {
    Fetched(Batch(s.leader, f.log.Next(), BATCH_SIZE), f.log.Next(), s.leader.Next())
  }

  /** AppendEntry on the replica for the first record of the response; a gap ends the catch-up. */
  function ApplyFirst(f: Follower): Follower
    requires f.fetch.Fetched? && f.fetch.entries != []
  {
    var Fetched(entries, from, hw) := f.fetch;
    if EntryOutcomeOf(f.log, from) == NonContiguous then f.(fetch := NoFetch)
    else f.(log := AfterEntry(f.log, from, entries[0]), fetch := Fetched(entries[1..], from + 1, hw),
            lastActive := f.lastActive || EntryOutcomeOf(f.log, from) == Applied)
  }

  /** TryFinalizeInSync against the high watermark of this response. */
  function Finish(f: Follower): Follower
    requires f.fetch.Fetched?
  {
    f.(fetch := NoFetch, inSync := f.inSync || f.log.Next() >= f.fetch.highWatermark)
  }

  /** The calls of a leader process that dies never finish; its log is on disk. */
  function AfterLeaderCrash(s: State): State {
    s.(calls := map c | c in s.calls :: if Live(s.calls[c]) then s.calls[c].(phase := Failed) else s.calls[c])
  }

  function Apply(s: State, step: Step): State
    requires Enabled(s, step)
  {
    match step
    case Begin(c) => AfterBegin(s, c)
    case Push(c, timestamp, payload, targets) => AfterPushes(s, c, timestamp, payload, targets)
    case DeliverPush(e) => AfterDeliverPush(s, e)
    case FailPush(e) => AfterFailPush(s, e)
    case LosePush(e) => s.(pushes := s.pushes - {e})
    case DeliverAck(e) => AfterDeliverAck(s, e)
    case LoseAck(e) => s.(acks := s.acks - {e})
    case Decide(c) => AfterDecide(s, c)
    case Commit(c, fault) => AfterCommit(s, c, fault)
    case DeliverInvalidation(e, lastActive) => AfterDeliverInvalidation(s, e, lastActive)
    case LoseInvalidation(e) => s.(invalidations := s.invalidations - {e})
    case StartFetch(n) => SetFollower(s, n, s.followers[n].(fetch := FetchFrom(s, s.followers[n])))
    case ApplyFetched(n) => SetFollower(s, n, ApplyFirst(s.followers[n]))
    case FailFetched(n) => SetFollower(s, n, s.followers[n].(fetch := NoFetch, lastActive := false))
    case FinishRound(n) => SetFollower(s, n, Finish(s.followers[n]))
    case AbortFetch(n) => SetFollower(s, n, s.followers[n].(fetch := NoFetch))
    case FollowerCrash(n) => SetFollower(s, n, s.followers[n].(inSync := false, fetch := NoFetch))
    case ForceInSync(n) => SetFollower(s, n, s.followers[n].(inSync := true))
    case LeaderCrash => AfterLeaderCrash(s)
    case LeaveIsr(n) => s.(isr := s.isr - {n})
    case JoinIsr(n) => s.(isr := s.isr + {n})
  }

  /** A partition whose in-sync followers hold the leader's log; the other followers hold anything. */
  ghost predicate Init(s: State) {
    && s.calls == map[] && s.pushes == s.acks == s.invalidations == {}
    && s.isr <= s.followers.Keys
    && (forall n :: n in s.followers ==> s.followers[n].log.base == s.leader.base && s.followers[n].fetch.NoFetch?)
    && (forall n :: n in s.isr ==> s.followers[n].log == s.leader)
    && (forall i :: 0 <= i < |s.leader.recs| ==> s.leader.recs[i].msg.offset == s.leader.base + i)
  }

  /** `states` are the states of a run that takes `steps`. */
  ghost predicate Run(states: seq<State>, steps: seq<Step>) {
    && |states| == |steps| + 1
    && Init(states[0])
    && forall i :: 0 <= i < |steps| ==> RunsStep(states, steps, i)
  }

  ghost predicate RunsStep(states: seq<State>, steps: seq<Step>, i: nat)
    requires |states| == |steps| + 1 && i < |steps|
  {
    Enabled(states[i], steps[i]) && states[i + 1] == Apply(states[i], steps[i])
  }
}
