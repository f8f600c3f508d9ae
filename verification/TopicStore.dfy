/** mutateTopic as a step system: any number of callers read the topic, change their copy and write
    it back if the key has not been modified since, over a store whose revision only grows. */
module TopicStore {
  import opened Log
  import opened TopicMeta

  type CallerId = nat

  const MAX_RETRIES: nat := 5

  /** Where a call of mutateTopic is. Aborted is an error before the write was applied; Unknown is a
      write whose reply was lost, applied or not. */
  datatype Phase =
    | Reading(attempt: nat)
    | Writing(attempt: nat, copy: seq<PartitionParams>, revision: nat)
    | Done
    | Rejected
    | NotFound
    | Contended
    | Aborted
    | Unknown

  datatype Caller = Caller(mutation: Mutation, phase: Phase)

  datatype Commit = Commit(caller: CallerId, mutation: Mutation)

  /** The topic's key: its partitions (None when it does not exist) and the revision of its last
      write; `revision` is the store's own counter. `commits` records the successful mutations. */
  datatype State = State(topic: Option<seq<PartitionParams>>, modRevision: nat, revision: nat,
                         callers: map<CallerId, Caller>,
                         created: seq<PartitionParams>, commits: seq<Commit>)

  datatype Step =
    | Create(ps: seq<PartitionParams>)
    | WriteOtherKey
    | Start(caller: CallerId, mutation: Mutation)
    | Get(caller: CallerId)
    | PutCAS(caller: CallerId)
    | PutReplyLost(caller: CallerId)
    | Abort(caller: CallerId)

  predicate Enabled(s: State, step: Step) {
    match step
    case Create(_) => true
    case WriteOtherKey => true
    case Start(c, _) => c !in s.callers
    case Get(c) => c in s.callers && s.callers[c].phase.Reading?
    case PutCAS(c) => c in s.callers && s.callers[c].phase.Writing?
    case PutReplyLost(c) => c in s.callers && s.callers[c].phase.Writing?
    case Abort(c) => c in s.callers && (s.callers[c].phase.Reading? || s.callers[c].phase.Writing?)
  }

  function SetPhase(s: State, c: CallerId, phase: Phase): State
    requires c in s.callers
  {
    s.(callers := s.callers[c := s.callers[c].(phase := phase)])
  }

  /** PutTopicCAS with expected revision 0: only if the key does not exist. */
  function AfterCreate(s: State, ps: seq<PartitionParams>): State {
    if s.topic.Some? then s
    else s.(topic := Some(ps), modRevision := s.revision + 1, revision := s.revision + 1, created := ps, commits := [])
  }

  function AfterGet(s: State, c: CallerId): State
    requires c in s.callers && s.callers[c].phase.Reading?
  {
    var attempt := s.callers[c].phase.attempt;
    if s.topic.None? then SetPhase(s, c, NotFound)
    else match Mutate(s.callers[c].mutation, s.topic.value)
         case None => SetPhase(s, c, Rejected)
         case Some(copy) => SetPhase(s, c, Writing(attempt, copy, s.modRevision))
  }

  /** The compare-then-put of one caller. */
  function AfterPut(s: State, c: CallerId): State
    requires c in s.callers && s.callers[c].phase.Writing?
  {
    var Caller(mutation, Writing(attempt, copy, revision)) := s.callers[c];
    if s.topic.Some? && s.modRevision == revision then
      SetPhase(s.(topic := Some(copy), modRevision := s.revision + 1, revision := s.revision + 1,
                  commits := s.commits + [Commit(c, mutation)]), c, Done)
    else SetPhase(s, c, if attempt + 1 < MAX_RETRIES then Reading(attempt + 1) else Contended)
  }

  function Apply(s: State, step: Step): State
    requires Enabled(s, step)
  {
    match step
    case Create(ps) => AfterCreate(s, ps)
    case WriteOtherKey => s.(revision := s.revision + 1)
    case Start(c, m) => s.(callers := s.callers[c := Caller(m, Reading(0))])
    case Get(c) => AfterGet(s, c)
    case PutCAS(c) => AfterPut(s, c)
    case PutReplyLost(c) => SetPhase(AfterPut(s, c), c, Unknown)
    case Abort(c) => SetPhase(s, c, Aborted)
  }

  ghost predicate Init(s: State) {
    s.topic == None && s.modRevision == 0 && s.callers == map[] && s.commits == []
  }

  ghost predicate Run(states: seq<State>, steps: seq<Step>) {
    && |states| == |steps| + 1
    && Init(states[0])
    && forall i :: 0 <= i < |steps| ==> RunsStep(states, steps, i)
  }

  ghost predicate RunsStep(states: seq<State>, steps: seq<Step>, i: nat)
    requires |states| == |steps| + 1 && i < |steps|
  {
    Enabled(states[i], steps[i]) && states[i + 1] == Apply(states[i], steps[i])
  }

  /** The mutations applied one after the other to the topic as it was created. */
  function Fold(created: seq<PartitionParams>, commits: seq<Commit>): Option<seq<PartitionParams>> {
    if commits == [] then Some(created)
    else match Fold(created, commits[..|commits| - 1])
         case None => None
         case Some(ps) => Mutate(commits[|commits| - 1].mutation, ps)
  }

  function CommitsOf(commits: seq<Commit>, c: CallerId): nat {
    if commits == [] then 0
    else CommitsOf(commits[..|commits| - 1], c) + if commits[|commits| - 1].caller == c then 1 else 0
  }

  ghost predicate CallerInv(s: State, c: CallerId)
    requires c in s.callers
  {
    var k := s.callers[c];
    && (k.phase.Writing? ==>
          && k.phase.revision <= s.revision && 0 < k.phase.revision
          && (s.topic.Some? && s.modRevision == k.phase.revision ==>
                Mutate(k.mutation, s.topic.value) == Some(k.phase.copy)))
    && (k.phase.Done? ==> CommitsOf(s.commits, c) == 1)
    && (k.phase.Unknown? ==> CommitsOf(s.commits, c) <= 1)
    && (!k.phase.Done? && !k.phase.Unknown? ==> CommitsOf(s.commits, c) == 0)
  }

  ghost predicate Inv(s: State) {
    && s.modRevision <= s.revision
    && (s.topic.Some? ==> 0 < s.modRevision)
    && (s.topic.None? ==> s.commits == [])
    && (s.topic.Some? ==> s.topic == Fold(s.created, s.commits))
    && (forall c :: c in s.callers ==> CallerInv(s, c))
    && (forall c :: c !in s.callers ==> CommitsOf(s.commits, c) == 0)
    && (s.topic.None? ==> forall c :: c in s.callers ==> !s.callers[c].phase.Writing?)
  }

  lemma AddCommit(commits: seq<Commit>, commit: Commit)
    ensures forall c :: CommitsOf(commits + [commit], c)
                        == CommitsOf(commits, c) + if commit.caller == c then 1 else 0
    ensures forall created :: Fold(created, commits + [commit])
                              == if Fold(created, commits).None? then None
                                 else Mutate(commit.mutation, Fold(created, commits).value)
  {
    assert (commits + [commit])[..|commits|] == commits;
  }

  lemma PutKeeps(s: State, c: CallerId)
    requires Inv(s) && Enabled(s, PutCAS(c))
    ensures Inv(AfterPut(s, c))
  {
    var s' := AfterPut(s, c);
    assert CallerInv(s, c);
    AddCommit(s.commits, Commit(c, s.callers[c].mutation));
    forall d | d in s'.callers ensures CallerInv(s', d) {
      assert CallerInv(s, d);
    }
  }

  lemma StepKeeps(s: State, step: Step)
    requires Inv(s) && Enabled(s, step)
    ensures Inv(Apply(s, step))
  {
    hide CallerInv, Mutate;
    match step
    case Create(ps) => CreateKeeps(s, ps);
    case WriteOtherKey => WriteOtherKeyKeeps(s);
    case Start(c, m) => StartKeeps(s, c, m);
    case Get(c) => GetKeeps(s, c);
    case PutCAS(c) => PutKeeps(s, c);
    case PutReplyLost(c) =>
      PutKeeps(s, c);
      EndKeeps(AfterPut(s, c), c, Unknown);
    case Abort(c) => EndKeeps(s, c, Aborted);
  }

  lemma CreateKeeps(s: State, ps: seq<PartitionParams>)
    requires Inv(s)
    ensures Inv(AfterCreate(s, ps))
  {
    var s' := AfterCreate(s, ps);
    forall d | d in s'.callers ensures CallerInv(s', d) {
      assert CallerInv(s, d);
    }
  }

  lemma WriteOtherKeyKeeps(s: State)
    requires Inv(s)
    ensures Inv(s.(revision := s.revision + 1))
  {
    var s' := s.(revision := s.revision + 1);
    forall d | d in s'.callers ensures CallerInv(s', d) {
      assert CallerInv(s, d);
    }
  }

  lemma StartKeeps(s: State, c: CallerId, m: Mutation)
    requires Inv(s) && c !in s.callers
    ensures Inv(s.(callers := s.callers[c := Caller(m, Reading(0))]))
  {
    var s' := s.(callers := s.callers[c := Caller(m, Reading(0))]);
    forall d | d in s'.callers ensures CallerInv(s', d) {
      assert d != c ==> CallerInv(s, d);
    }
  }

  lemma GetKeeps(s: State, c: CallerId)
    requires Inv(s) && Enabled(s, Get(c))
    ensures Inv(AfterGet(s, c))
  {
    var s' := AfterGet(s, c);
    forall d | d in s'.callers ensures CallerInv(s', d) {
      assert CallerInv(s, d);
    }
  }

  /** A call that ends without a reply has committed at most once, and not at all if it was reading
      or writing until now. */
  lemma EndKeeps(s: State, c: CallerId, phase: Phase)
    requires Inv(s) && c in s.callers
    requires phase == Unknown || (phase == Aborted && (s.callers[c].phase.Reading? || s.callers[c].phase.Writing?))
    ensures Inv(SetPhase(s, c, phase))
  {
    var s' := SetPhase(s, c, phase);
    forall d | d in s'.callers ensures CallerInv(s', d) {
      assert CallerInv(s, d);
    }
  }

  lemma {:induction false} InvariantHolds(states: seq<State>, steps: seq<Step>, i: nat)
    requires Run(states, steps) && i < |states|
    ensures Inv(states[i])
  {
    if i > 0 {
      InvariantHolds(states, steps, i - 1);
      assert RunsStep(states, steps, i - 1);
      StepKeeps(states[i - 1], steps[i - 1]);
    }
  }

  /** CAS updates serialise: in every state of every run the stored topic is the fold of the committed
      mutations, in commit order, over the topic as created; a caller that was told success has
      committed exactly once, one that was told failure not at all, and one whose reply was lost at
      most once. */
  lemma UpdatesSerialise(states: seq<State>, steps: seq<Step>, i: nat)
    requires Run(states, steps) && i < |states|
    ensures states[i].topic.Some? ==> states[i].topic == Fold(states[i].created, states[i].commits)
    ensures forall c :: c in states[i].callers ==>
              var n := CommitsOf(states[i].commits, c);
              match states[i].callers[c].phase
              case Done => n == 1
              case Unknown => n <= 1
              case _ => n == 0
  {
    InvariantHolds(states, steps, i);
    forall c | c in states[i].callers ensures CallerInv(states[i], c) {
    }
  }

  /** No update is lost: a write that succeeds applies its mutation to the topic as it is at that
      moment, not to the copy that the caller had read. */
  lemma NoLostUpdate(states: seq<State>, steps: seq<Step>, i: nat, c: CallerId)
    requires Run(states, steps) && i < |steps| && steps[i] == PutCAS(c)
    requires Enabled(states[i], steps[i]) && states[i + 1] == Apply(states[i], steps[i])
    requires c in states[i + 1].callers && states[i + 1].callers[c].phase.Done?
    ensures states[i].topic.Some?
    ensures states[i + 1].topic == Mutate(states[i].callers[c].mutation, states[i].topic.value)
  {
    InvariantHolds(states, steps, i);
    assert CallerInv(states[i], c);
  }

  // --- When a write succeeds ---

  predicate Acts(step: Step, c: CallerId) {
    !step.Create? && !step.WriteOtherKey? && step.caller == c
  }

  lemma {:induction false} CallerStays(states: seq<State>, steps: seq<Step>, i: nat, j: nat, c: CallerId)
    requires Run(states, steps) && i <= j < |states| && c in states[i].callers
    requires forall k :: i <= k < j ==> !Acts(steps[k], c)
    ensures c in states[j].callers && states[j].callers[c] == states[i].callers[c]
    decreases j
  {
    if i < j {
      CallerStays(states, steps, i, j - 1, c);
      assert RunsStep(states, steps, j - 1);
    }
  }

  /** While the topic exists, its revision changes exactly with the commits. */
  lemma {:induction false} RevisionCounts(states: seq<State>, steps: seq<Step>, i: nat, j: nat)
    requires Run(states, steps) && i <= j < |states| && states[i].topic.Some?
    ensures states[j].topic.Some? && states[i].commits <= states[j].commits
    ensures states[i].modRevision <= states[j].modRevision
    ensures states[i].modRevision == states[j].modRevision <==> states[i].commits == states[j].commits
    decreases j
  {
    if i < j {
      RevisionCounts(states, steps, i, j - 1);
      InvariantHolds(states, steps, j - 1);
      assert RunsStep(states, steps, j - 1);
      RevisionStep(states[j - 1], steps[j - 1]);
    }
  }

  lemma RevisionStep(s: State, step: Step)
    requires Inv(s) && Enabled(s, step) && s.topic.Some?
    ensures var t := Apply(s, step);
            && t.topic.Some? && s.commits <= t.commits && s.modRevision <= t.modRevision
            && (s.modRevision == t.modRevision <==> s.commits == t.commits)
  {
  }

  /** A write succeeds if and only if no mutation has been committed since its caller read the topic. Then
      the stored topic is the mutated one; otherwise the topic is as it was, and the caller reads again,
      or gives up after its fifth attempt. */
  lemma WriteSucceedsIff(states: seq<State>, steps: seq<Step>, i: nat, j: nat, c: CallerId)
    requires Run(states, steps) && i < j < |steps| && steps[i] == Get(c) && steps[j] == PutCAS(c)
    requires forall k :: i < k < j ==> !Acts(steps[k], c)
    ensures c in states[i].callers && c in states[j + 1].callers && states[i].callers[c].phase.Reading?
    ensures states[i].topic.Some? && states[j].topic.Some? && states[i].commits <= states[j].commits
    ensures var m, phase, attempt := states[i].callers[c].mutation, states[j + 1].callers[c].phase,
                                     states[i].callers[c].phase.attempt;
            if states[j].commits == states[i].commits then
              phase == Done && states[j + 1].topic == Mutate(m, states[j].topic.value)
              && |states[j + 1].commits| == |states[j].commits| + 1
            else
              states[j + 1].topic == states[j].topic && states[j + 1].commits == states[j].commits
              && phase == if attempt < 4 then Reading(attempt + 1) else Contended
  {
    assert RunsStep(states, steps, i) && RunsStep(states, steps, j);
    assert c in states[i + 1].callers;
    CallerStays(states, steps, i + 1, j, c);
    RevisionCounts(states, steps, i, j);
    InvariantHolds(states, steps, j);
    assert CallerInv(states[j], c);
  }

  /** A call that is not disturbed goes through at its first attempt, unless the mutator refuses; also if
      the reply to its write is lost. */
  lemma UndisturbedCallEnds(s: State, c: CallerId, m: Mutation)
    requires c !in s.callers
    ensures Enabled(s, Start(c, m)) && Enabled(Apply(s, Start(c, m)), Get(c))
    ensures var read := Apply(Apply(s, Start(c, m)), Get(c));
            if s.topic.None? then read == s.(callers := s.callers[c := Caller(m, NotFound)])
            else match Mutate(m, s.topic.value)
                 case None => read == s.(callers := s.callers[c := Caller(m, Rejected)])
                 case Some(ps) =>
                   && Enabled(read, PutCAS(c))
                   && Apply(read, PutCAS(c)).topic == Some(ps)
                   && Apply(read, PutCAS(c)).callers == s.callers[c := Caller(m, Done)]
                   && Apply(read, PutCAS(c)).commits == s.commits + [Commit(c, m)]
                   && Enabled(read, PutReplyLost(c))
                   && Apply(read, PutReplyLost(c)) == SetPhase(Apply(read, PutCAS(c)), c, Unknown)
  {
    hide Mutate;
  }

  /** Until it has written, a call can always end without a trace. */
  lemma CallCanAbort(s: State, c: CallerId)
    requires c in s.callers && (s.callers[c].phase.Reading? || s.callers[c].phase.Writing?)
    ensures Enabled(s, Abort(c)) && Apply(s, Abort(c)) == s.(callers := s.callers[c := s.callers[c].(phase := Aborted)])
  {
  }

  // --- Replica sets along a run ---

  /** Topics are created with sound replica sets. */
  ghost predicate CreatesSound(steps: seq<Step>) {
    forall i :: 0 <= i < |steps| && steps[i].Create? ==> Sound(steps[i].ps)
  }

  lemma {:induction false} FoldSound(created: seq<PartitionParams>, commits: seq<Commit>)
    requires Sound(created) && Fold(created, commits).Some?
    ensures Sound(Fold(created, commits).value) && |Fold(created, commits).value| == |created|
  {
    if commits != [] {
      FoldSound(created, commits[..|commits| - 1]);
      MutateSound(commits[|commits| - 1].mutation, Fold(created, commits[..|commits| - 1]).value);
    }
  }

  lemma {:induction false} CreatedSound(states: seq<State>, steps: seq<Step>, i: nat)
    requires Run(states, steps) && CreatesSound(steps) && i < |states|
    ensures states[i].topic.Some? ==> Sound(states[i].created)
  {
    if i > 0 {
      CreatedSound(states, steps, i - 1);
      assert RunsStep(states, steps, i - 1);
    }
  }

  /** In every state of every run, every partition has duplicate-free replicas and an in-sync set
      contained in them. */
  lemma ReplicaSetsStaySound(states: seq<State>, steps: seq<Step>, i: nat)
    requires Run(states, steps) && CreatesSound(steps) && i < |states| && states[i].topic.Some?
    ensures Sound(states[i].topic.value)
  {
    InvariantHolds(states, steps, i);
    CreatedSound(states, steps, i);
    FoldSound(states[i].created, states[i].commits);
  }

  ghost predicate NotAReplica(s: State, k: nat, partitionId: int, node: NodeId) {
    && s.topic.Some? && k < |s.topic.value|
    && s.topic.value[k].partitionId == partitionId
    && node !in s.topic.value[k].replicas
  }

  lemma StaysOut(s: State, step: Step, k: nat, partitionId: int, node: NodeId)
    requires Inv(s) && Enabled(s, step) && NotAReplica(s, k, partitionId, node)
    requires var t := Apply(s, step); forall n :: |s.commits| <= n < |t.commits| ==>
               t.commits[n].mutation != AddReplica(partitionId, node)
    ensures NotAReplica(Apply(s, step), k, partitionId, node)
    ensures s.commits <= Apply(s, step).commits
  {
    if step.PutCAS? || step.PutReplyLost? {
      var c, t := step.caller, Apply(s, step);
      assert CallerInv(s, c);
      if t.topic != s.topic {
        var m := s.callers[c].mutation;
        assert t.commits[|s.commits|].mutation == m;
        OnlyAddAssigns(m, s.topic.value, k, node);
      }
    }
  }

  /** A removed node cannot re-enter the in-sync set without being assigned again: from a state in
      which it is not a replica of a partition, it is in neither set of that partition until an
      assignment of it commits, however stale the callers that act meanwhile. */
  lemma {:induction false} RemovedStaysOut(states: seq<State>, steps: seq<Step>, i: nat, j: nat,
                                           k: nat, partitionId: int, node: NodeId)
    requires Run(states, steps) && CreatesSound(steps) && i <= j < |states|
    requires NotAReplica(states[i], k, partitionId, node)
    requires forall n :: |states[i].commits| <= n < |states[j].commits| ==>
               states[j].commits[n].mutation != AddReplica(partitionId, node)
    ensures NotAReplica(states[j], k, partitionId, node)
    ensures node !in states[j].topic.value[k].isr
    ensures states[i].commits <= states[j].commits
    decreases j
  {
    if i < j {
      assert RunsStep(states, steps, j - 1);
      InvariantHolds(states, steps, j - 1);
      CommitsGrow(states, steps, i, j - 1);
      assert states[j - 1].commits <= states[j].commits by {
        TopicStaysCreated(states[j - 1], steps[j - 1]);
      }
      RemovedStaysOut(states, steps, i, j - 1, k, partitionId, node);
      StaysOut(states[j - 1], steps[j - 1], k, partitionId, node);
    }
    ReplicaSetsStaySound(states, steps, j);
    assert SoundPartition(states[j].topic.value[k]);
  }

  lemma TopicStaysCreated(s: State, step: Step)
    requires Enabled(s, step) && s.topic.Some?
    ensures Apply(s, step).topic.Some? && s.commits <= Apply(s, step).commits
  {
  }

  lemma {:induction false} CommitsGrow(states: seq<State>, steps: seq<Step>, i: nat, j: nat)
    requires Run(states, steps) && i <= j < |states| && states[i].topic.Some?
    ensures states[j].topic.Some? && states[i].commits <= states[j].commits
    decreases j
  {
    if i < j {
      CommitsGrow(states, steps, i, j - 1);
      assert RunsStep(states, steps, j - 1);
      TopicStaysCreated(states[j - 1], steps[j - 1]);
    }
  }
}
