/** Controller election: the election loops of all nodes over one etcd key, together with session
    losses, restarts and late watch events. */
module Election {
  import opened Log

  type NodeId = nat
  type LoopId = nat

  datatype Role = Unroled | Follower | Controller

  /** What a node holds in memory. A role switch sets the role first and the epoch in a second
      assignment; both happen under the node's lock, which `switching` stands for. */
  datatype Node = Node(role: Role, epoch: nat, switching: Option<nat>)

  /** Where one election loop is. Several loops of one node may be alive at once: a loop that a
      session loss has cancelled can still be on its way out when the next one starts. */
  datatype Phase =
    | Looping
    | Saw(leader: Option<NodeId>, epoch: nat, revision: nat)
    | Trying(epoch: nat, revision: nat)
    | Elected(epoch: nat)
    | Holding

  datatype Loop = Loop(node: NodeId, phase: Phase)

  datatype ControllerState = ControllerState(leader: NodeId, epoch: nat)

  /** `winners[e - 1]` is the node that wrote epoch e. A revision of 0 means that the key does not exist. */
  datatype State = State(key: Option<ControllerState>, modRevision: nat, revision: nat,
                         nodes: map<NodeId, Node>, loops: map<LoopId, Loop>, winners: seq<NodeId>)

  datatype Step =
    | Spawn(loop: LoopId, node: NodeId)
    | Read(loop: LoopId)
    | Recognise(loop: LoopId)
    | SeeAlive(loop: LoopId)
    | SeeDead(loop: LoopId)
    | TakeOver(loop: LoopId, ownKeySame: bool)
    | TakeOverReplyLost(loop: LoopId, ownKeySame: bool)
    | GiveUp(loop: LoopId)
    | BecomeController(loop: LoopId)
    | FinishSwitch(node: NodeId)
    | WatchEvent(node: NodeId, epoch: nat)
    | SessionLoss(node: NodeId)
    | Restart(node: NodeId)
    | WriteOtherKey

  predicate Unlocked(s: State, n: NodeId) {
    n in s.nodes && s.nodes[n].switching.None?
  }

  /** The loop reads its own id as that of the controller. An absent key reads as controller 0. */
  predicate TakesForItself(loop: Loop)
    requires loop.phase.Saw?
  {
    loop.phase.leader == Some(loop.node) || (loop.phase.leader == None && loop.node == 0)
  }

  predicate Enabled(s: State, step: Step) {
    match step
    case Spawn(l, n) => l !in s.loops && n in s.nodes
    case Read(l) => l in s.loops && s.loops[l].phase.Looping?
    case Recognise(l) => l in s.loops && s.loops[l].phase.Saw? && TakesForItself(s.loops[l])
    case SeeAlive(l) =>
      && l in s.loops && s.loops[l].phase.Saw? && s.loops[l].phase.leader.Some?
      && !TakesForItself(s.loops[l]) && Unlocked(s, s.loops[l].node)
    case SeeDead(l) => l in s.loops && s.loops[l].phase.Saw? && !TakesForItself(s.loops[l])
    case TakeOver(l, _) => l in s.loops && s.loops[l].phase.Trying?
    case TakeOverReplyLost(l, _) => l in s.loops && s.loops[l].phase.Trying?
    case GiveUp(l) => l in s.loops
    case BecomeController(l) => l in s.loops && s.loops[l].phase.Elected? && Unlocked(s, s.loops[l].node)
    case FinishSwitch(n) => n in s.nodes && s.nodes[n].switching.Some?
    case WatchEvent(n, e) => Unlocked(s, n) && 1 <= e <= |s.winners| && s.winners[e - 1] != n
    case SessionLoss(n) => Unlocked(s, n)
    case Restart(n) => n in s.nodes
    case WriteOtherKey => true
  }

  function SetPhase(s: State, l: LoopId, phase: Phase): State
    requires l in s.loops
  {
    s.(loops := s.loops[l := s.loops[l].(phase := phase)])
  }

  function SetNode(s: State, n: NodeId, node: Node): State {
    s.(nodes := s.nodes[n := node])
  }

  /** The first half of SwitchToControllerMode and SwitchToFollowerMode. */
  function BeginSwitch(s: State, n: NodeId, role: Role, epoch: nat): State
    requires n in s.nodes
  {
    SetNode(s, n, s.nodes[n].(role := role, switching := Some(epoch)))
  }

  function AfterRead(s: State, l: LoopId): State
    requires l in s.loops
  {
    match s.key
    case None => SetPhase(s, l, Saw(None, 0, 0))
    case Some(k) => SetPhase(s, l, Saw(Some(k.leader), k.epoch, s.modRevision))
  }

  /** The transaction of a takeover: it succeeds only if the controller's key, and the node's own, are as the
      loop read them, and writes the next epoch. */
  function AfterTakeOver(s: State, l: LoopId, ownKeySame: bool): State
    requires l in s.loops && s.loops[l].phase.Trying?
  {
    var Loop(n, Trying(epoch, revision)) := s.loops[l];
    if revision == s.modRevision && ownKeySame then
      SetPhase(s.(key := Some(ControllerState(n, epoch + 1)), modRevision := s.revision + 1,
                  revision := s.revision + 1, winners := s.winners + [n]), l, Elected(epoch + 1))
    else SetPhase(s, l, Looping)
  }

  function Apply(s: State, step: Step): State
    requires Enabled(s, step)
  {
    match step
    case Spawn(l, n) => s.(loops := s.loops[l := Loop(n, Looping)])
    case Read(l) => AfterRead(s, l)
    case Recognise(l) => SetPhase(s, l, Elected(s.loops[l].phase.epoch))
    case SeeAlive(l) =>
      SetPhase(BeginSwitch(s, s.loops[l].node, Follower, s.loops[l].phase.epoch), l, Looping)
    case SeeDead(l) => SetPhase(s, l, Trying(s.loops[l].phase.epoch, s.loops[l].phase.revision))
    case TakeOver(l, same) => AfterTakeOver(s, l, same)
    case TakeOverReplyLost(l, same) => SetPhase(AfterTakeOver(s, l, same), l, Looping)
    case GiveUp(l) => SetPhase(s, l, Looping)
    case BecomeController(l) =>
      SetPhase(BeginSwitch(s, s.loops[l].node, Controller, s.loops[l].phase.epoch), l, Holding)
    case FinishSwitch(n) => SetNode(s, n, s.nodes[n].(epoch := s.nodes[n].switching.value, switching := None))
    case WatchEvent(n, e) => BeginSwitch(s, n, Follower, e)
    case SessionLoss(n) => SetNode(s, n, s.nodes[n].(role := Follower))
    case Restart(n) =>
      s.(nodes := s.nodes[n := Node(Unroled, 0, None)],
         loops := map l | l in s.loops && s.loops[l].node != n :: s.loops[l])
    case WriteOtherKey => s.(revision := s.revision + 1)
  }

  ghost predicate Init(s: State) {
    && s.key == None && s.modRevision == 0 && s.loops == map[] && s.winners == []
    && forall n :: n in s.nodes ==> s.nodes[n] == Node(Unroled, 0, None)
  }

  ghost predicate Run(states: seq<State>, steps: seq<Step>) {
    && |states| == |steps| + 1
    && Init(states[0])
    && forall i :: 0 <= i < |steps| ==> RunsStep(states, steps, i)
  }

  ghost predicate RunsStep(states: seq<State>, steps: seq<Step>, i: nat)
    requires |states| == |steps| + 1 && i < |steps|
  {
    Enabled(states[i], steps[i]) && states[i + 1] == Apply(states[i], steps[i])
  }

  /** Node `n` is the one that wrote this epoch. */
  predicate Won(winners: seq<NodeId>, n: NodeId, epoch: nat) {
    1 <= epoch <= |winners| && winners[epoch - 1] == n
  }

  /** Node `n` may be controller with this epoch: it has won it, or it is node 0 and has read that there is no key. */
  predicate Entitled(winners: seq<NodeId>, n: NodeId, epoch: nat) {
    Won(winners, n, epoch) || (n == 0 && epoch == 0)
  }

  predicate LoopInv(s: State, loop: Loop) {
    match loop.phase
    case Saw(leader, epoch, revision) =>
      && revision <= s.modRevision && (revision == s.modRevision ==> epoch == |s.winners|)
      && (leader.Some? ==> Won(s.winners, leader.value, epoch)) && (leader.None? ==> epoch == 0)
    case Trying(epoch, revision) =>
      revision <= s.modRevision && (revision == s.modRevision ==> epoch == |s.winners|)
    case Elected(epoch) => Entitled(s.winners, loop.node, epoch)
    case _ => true
  }

  predicate NodeInv(s: State, n: NodeId, node: Node) {
    node.role.Controller? ==>
      Entitled(s.winners, n, if node.switching.Some? then node.switching.value else node.epoch)
  }

  ghost predicate Inv(s: State) {
    && s.modRevision <= s.revision
    && (s.key.None? <==> s.winners == [])
    && (s.key.None? <==> s.modRevision == 0)
    && (s.key.Some? ==> s.key.value.epoch == |s.winners| && Won(s.winners, s.key.value.leader, s.key.value.epoch))
    && (forall l :: l in s.loops ==> LoopInv(s, s.loops[l]))
    && (forall n :: n in s.nodes ==> NodeInv(s, n, s.nodes[n]))
  }

  /** One loop moves on. */
  lemma MoveKeeps(s: State, l: LoopId, phase: Phase)
    requires Inv(s) && l in s.loops && LoopInv(s, s.loops[l].(phase := phase))
    ensures Inv(SetPhase(s, l, phase))
  {
    hide Won;
    var s' := SetPhase(s, l, phase);
    forall k | k in s'.loops ensures LoopInv(s', s'.loops[k]) {
      assert k != l ==> LoopInv(s, s.loops[k]);
    }
    forall n | n in s'.nodes ensures NodeInv(s', n, s'.nodes[n]) {
      assert NodeInv(s, n, s.nodes[n]);
    }
  }

  /** One node changes its role or its epoch. */
  lemma SwitchKeeps(s: State, n: NodeId, node: Node)
    requires Inv(s) && NodeInv(s, n, node)
    ensures Inv(SetNode(s, n, node))
  {
    hide Won;
    var s' := SetNode(s, n, node);
    forall k | k in s'.loops ensures LoopInv(s', s'.loops[k]) {
      assert LoopInv(s, s.loops[k]);
    }
    forall m | m in s'.nodes ensures NodeInv(s', m, s'.nodes[m]) {
      assert m != n ==> NodeInv(s, m, s.nodes[m]);
    }
  }

  lemma TakeOverKeeps(s: State, l: LoopId, ownKeySame: bool)
    requires Inv(s) && Enabled(s, TakeOver(l, ownKeySame))
    ensures Inv(AfterTakeOver(s, l, ownKeySame))
  {
    var s' := AfterTakeOver(s, l, ownKeySame);
    assert LoopInv(s, s.loops[l]);
    forall k | k in s'.loops ensures LoopInv(s', s'.loops[k]) {
      assert LoopInv(s, s.loops[k]);
    }
    forall n | n in s'.nodes ensures NodeInv(s', n, s'.nodes[n]) {
      assert NodeInv(s, n, s.nodes[n]);
    }
  }

  lemma ReadKeeps(s: State, l: LoopId)
    requires Inv(s) && Enabled(s, Read(l))
    ensures Inv(AfterRead(s, l))
  {
    var phase := if s.key.None? then Saw(None, 0, 0) else Saw(Some(s.key.value.leader), s.key.value.epoch, s.modRevision);
    MoveKeeps(s, l, phase);
  }

  lemma SpawnKeeps(s: State, l: LoopId, n: NodeId)
    requires Inv(s) && Enabled(s, Spawn(l, n))
    ensures Inv(Apply(s, Spawn(l, n)))
  {
    hide Won;
    var s' := Apply(s, Spawn(l, n));
    forall k | k in s'.loops ensures LoopInv(s', s'.loops[k]) {
      assert k != l ==> LoopInv(s, s.loops[k]);
    }
    forall m | m in s'.nodes ensures NodeInv(s', m, s'.nodes[m]) {
      assert NodeInv(s, m, s.nodes[m]);
    }
  }

  lemma RestartKeeps(s: State, n: NodeId)
    requires Inv(s) && Enabled(s, Restart(n))
    ensures Inv(Apply(s, Restart(n)))
  {
    hide Won;
    var t := SetNode(s, n, Node(Unroled, 0, None));
    SwitchKeeps(s, n, Node(Unroled, 0, None));
    var s' := Apply(s, Restart(n));
    forall k | k in s'.loops ensures LoopInv(s', s'.loops[k]) {
      assert LoopInv(t, t.loops[k]);
    }
    forall m | m in s'.nodes ensures NodeInv(s', m, s'.nodes[m]) {
      assert NodeInv(t, m, t.nodes[m]);
    }
  }

  lemma WriteOtherKeyKeeps(s: State)
    requires Inv(s)
    ensures Inv(Apply(s, WriteOtherKey))
  {
    hide Won;
    var s' := Apply(s, WriteOtherKey);
    forall k | k in s'.loops ensures LoopInv(s', s'.loops[k]) {
      assert LoopInv(s, s.loops[k]);
    }
    forall m | m in s'.nodes ensures NodeInv(s', m, s'.nodes[m]) {
      assert NodeInv(s, m, s.nodes[m]);
    }
  }

  /** A loop that acts on what it has read: it may start its node's switch. */
  lemma LoopStepKeeps(s: State, step: Step)
    requires Inv(s) && Enabled(s, step)
    requires step.Recognise? || step.SeeAlive? || step.SeeDead? || step.GiveUp? || step.BecomeController?
    ensures Inv(Apply(s, step))
  {
    hide Inv, Won;
    var l := step.loop;
    LoopHolds(s, l);
    var n, phase := s.loops[l].node, s.loops[l].phase;
    match step
    case Recognise(_) => MoveKeeps(s, l, Elected(phase.epoch));
    case SeeAlive(_) =>
      SwitchKeeps(s, n, s.nodes[n].(role := Follower, switching := Some(phase.epoch)));
      MoveKeeps(BeginSwitch(s, n, Follower, phase.epoch), l, Looping);
    case SeeDead(_) => MoveKeeps(s, l, Trying(phase.epoch, phase.revision));
    case GiveUp(_) => MoveKeeps(s, l, Looping);
    case BecomeController(_) =>
      SwitchKeeps(s, n, s.nodes[n].(role := Controller, switching := Some(phase.epoch)));
      MoveKeeps(BeginSwitch(s, n, Controller, phase.epoch), l, Holding);
  }

  lemma LoopHolds(s: State, l: LoopId)
    requires Inv(s) && l in s.loops
    ensures LoopInv(s, s.loops[l])
  {
  }

  lemma NodeStepKeeps(s: State, step: Step)
    requires Inv(s) && Enabled(s, step)
    requires step.FinishSwitch? || step.WatchEvent? || step.SessionLoss?
    ensures Inv(Apply(s, step))
  {
    hide Won;
    var n := step.node;
    assert NodeInv(s, n, s.nodes[n]);
    match step
    case FinishSwitch(_) => SwitchKeeps(s, n, s.nodes[n].(epoch := s.nodes[n].switching.value, switching := None));
    case WatchEvent(_, e) => SwitchKeeps(s, n, s.nodes[n].(role := Follower, switching := Some(e)));
    case SessionLoss(_) => SwitchKeeps(s, n, s.nodes[n].(role := Follower));
  }

  lemma StepKeeps(s: State, step: Step)
    requires Inv(s) && Enabled(s, step)
    ensures Inv(Apply(s, step))
  {
    hide Inv, LoopInv, NodeInv, Won;
    match step
    case Spawn(l, n) => SpawnKeeps(s, l, n);
    case Read(l) => ReadKeeps(s, l);
    case TakeOver(l, same) => TakeOverKeeps(s, l, same);
    case TakeOverReplyLost(l, same) =>
      TakeOverKeeps(s, l, same);
      AnyLoopGivesUp(AfterTakeOver(s, l, same), l);
    case Restart(n) => RestartKeeps(s, n);
    case WriteOtherKey => WriteOtherKeyKeeps(s);
    case FinishSwitch(_) => NodeStepKeeps(s, step);
    case WatchEvent(_, _) => NodeStepKeeps(s, step);
    case SessionLoss(_) => NodeStepKeeps(s, step);
    case _ => LoopStepKeeps(s, step);
  }

  lemma AnyLoopGivesUp(s: State, l: LoopId)
    requires Inv(s) && l in s.loops
    ensures Inv(SetPhase(s, l, Looping))
  {
    MoveKeeps(s, l, Looping);
  }

  lemma {:induction false} InvariantHolds(states: seq<State>, steps: seq<Step>, i: nat)
    requires Run(states, steps) && i < |states|
    ensures Inv(states[i])
  {
    if i > 0 {
      InvariantHolds(states, steps, i - 1);
      assert RunsStep(states, steps, i - 1);
      StepKeeps(states[i - 1], steps[i - 1]);
    }
  }

  /** A node in the controller role whose role and epoch have both been set. */
  predicate SettledController(s: State, n: NodeId) {
    n in s.nodes && s.nodes[n].role.Controller? && s.nodes[n].switching.None?
  }

  /** The epoch in etcd counts the takeovers, and a settled controller's epoch is one that it wrote
      itself (or 0 on node 0); so no two settled controllers ever have the same epoch, under any
      interleaving of stale reads, lost replies, session losses, late watch events and restarts. */
  lemma OneControllerPerEpoch(states: seq<State>, steps: seq<Step>, i: nat)
    requires Run(states, steps) && i < |states|
    ensures states[i].key.Some? ==> states[i].key.value.epoch == |states[i].winners|
                                    && Won(states[i].winners, states[i].key.value.leader, |states[i].winners|)
    ensures forall n :: SettledController(states[i], n) ==> Entitled(states[i].winners, n, states[i].nodes[n].epoch)
    ensures forall n, m :: SettledController(states[i], n) && SettledController(states[i], m) && n != m
                           ==> states[i].nodes[n].epoch != states[i].nodes[m].epoch
  {
    InvariantHolds(states, steps, i);
    forall n | SettledController(states[i], n) ensures Entitled(states[i].winners, n, states[i].nodes[n].epoch) {
      assert NodeInv(states[i], n, states[i].nodes[n]);
    }
  }

  /** A successful takeover writes the epoch that follows the one in etcd. */
  lemma EpochsGrowByOne(states: seq<State>, steps: seq<Step>, i: nat)
    requires Run(states, steps) && i < |steps| && states[i + 1].winners != states[i].winners
    ensures |states[i + 1].winners| == |states[i].winners| + 1 && states[i].winners <= states[i + 1].winners
    ensures states[i + 1].key.Some?
    ensures states[i + 1].key.value.epoch
            == 1 + if states[i].key.Some? then states[i].key.value.epoch else 0
  {
    assert RunsStep(states, steps, i);
    InvariantHolds(states, steps, i);
    InvariantHolds(states, steps, i + 1);
  }

  // --- What a loop can bring about ---

  /** `steps` lead from one state to another. */
  ghost predicate Leads(s: State, steps: seq<Step>, t: State)
    decreases |steps|
  {
    if steps == [] then t == s else Enabled(s, steps[0]) && Leads(Apply(s, steps[0]), steps[1..], t)
  }

  lemma LeadsOn(s: State, steps: seq<Step>, t: State, step: Step)
    requires Leads(s, steps, t) && Enabled(t, step)
    ensures Leads(s, steps + [step], Apply(t, step))
    decreases |steps|
  {
    if steps == [] {
      assert ([step])[1..] == [];
      assert Leads(Apply(s, step), [], Apply(t, step));
    } else {
      LeadsOn(Apply(s, steps[0]), steps[1..], t, step);
      assert (steps + [step])[1..] == steps[1..] + [step];
    }
  }

  /** A new loop of node n has read the key. */
  lemma ReadsKey(s: State, l: LoopId, n: NodeId) returns (steps: seq<Step>, t: State)
    requires Inv(s) && l !in s.loops && n in s.nodes
    ensures Leads(s, steps, t)
    ensures t == s.(loops := s.loops[l := Loop(n, if s.key.None? then Saw(None, 0, 0)
                                                  else Saw(Some(s.key.value.leader), s.key.value.epoch, s.modRevision))])
  {
    assert Leads(s, [], s);
    LeadsOn(s, [], s, Spawn(l, n));
    var spawned := Apply(s, Spawn(l, n));
    LeadsOn(s, [] + [Spawn(l, n)], spawned, Read(l));
    steps, t := [] + [Spawn(l, n)] + [Read(l)], Apply(spawned, Read(l));
  }

  /** The loop is elected: by the key as it is, or by a takeover. */
  lemma GetsElected(s: State, l: LoopId, n: NodeId) returns (steps: seq<Step>, t: State)
    requires Inv(s) && l !in s.loops && n in s.nodes
    ensures Leads(s, steps, t) && t.nodes == s.nodes
    ensures var before := if s.key.Some? then s.key.value.epoch else 0;
            if s.key.Some? && s.key.value.leader == n then
              t.key == s.key && t.winners == s.winners && t.loops == s.loops[l := Loop(n, Elected(before))]
            else if s.key.None? && n == 0 then
              t.key == None && t.winners == s.winners && t.loops == s.loops[l := Loop(n, Elected(0))]
            else
              t.key == Some(ControllerState(n, before + 1)) && t.winners == s.winners + [n]
              && t.loops == s.loops[l := Loop(n, Elected(before + 1))]
  {
    steps, t := ReadsKey(s, l, n);
    if TakesForItself(t.loops[l]) {
      LeadsOn(s, steps, t, Recognise(l));
      steps, t := steps + [Recognise(l)], Apply(t, Recognise(l));
    } else {
      LeadsOn(s, steps, t, SeeDead(l));
      steps, t := steps + [SeeDead(l)], Apply(t, SeeDead(l));
      LeadsOn(s, steps, t, TakeOver(l, true));
      steps, t := steps + [TakeOver(l, true)], Apply(t, TakeOver(l, true));
    }
  }

  /** The election can always succeed: from every state, a new loop of any node that is not in the middle of
      a switch can bring the node to be the controller, with the epoch of the key if the key names it and
      with the next one otherwise; node 0, where there is no key, with epoch 0 and without writing one. */
  lemma AnyNodeCanLead(s: State, l: LoopId, n: NodeId) returns (steps: seq<Step>, t: State)
    requires Inv(s) && l !in s.loops && Unlocked(s, n)
    ensures Leads(s, steps, t) && SettledController(t, n)
    ensures var before := if s.key.Some? then s.key.value.epoch else 0;
            if s.key.Some? && s.key.value.leader == n then
              t.key == s.key && t.nodes[n].epoch == before && t.winners == s.winners
            else if s.key.None? && n == 0 then
              t.key == None && t.nodes[n].epoch == 0 && t.winners == s.winners
            else
              t.key == Some(ControllerState(n, before + 1)) && t.nodes[n].epoch == before + 1
              && t.winners == s.winners + [n]
    ensures forall m :: m in s.nodes && m != n ==> m in t.nodes && t.nodes[m] == s.nodes[m]
  {
    hide Inv, Leads;
    steps, t := GetsElected(s, l, n);
    LeadsOn(s, steps, t, BecomeController(l));
    steps, t := steps + [BecomeController(l)], Apply(t, BecomeController(l));
    LeadsOn(s, steps, t, FinishSwitch(n));
    steps, t := steps + [FinishSwitch(n)], Apply(t, FinishSwitch(n));
  }

  // --- When a takeover succeeds ---

  /** The step is one of loop l, which belongs to node n, or ends it. */
  predicate Acts(step: Step, l: LoopId, n: NodeId) {
    match step
    case Restart(m) => m == n
    case FinishSwitch(_) => false
    case WatchEvent(_, _) => false
    case SessionLoss(_) => false
    case WriteOtherKey => false
    case _ => step.loop == l
  }

  /** What a loop has read it keeps until it acts on it. */
  lemma {:induction false} ReadStays(states: seq<State>, steps: seq<Step>, i: nat, j: nat, l: LoopId, n: NodeId)
    requires Run(states, steps) && i < j <= |steps| && steps[i] == Read(l)
    requires l in states[i].loops && states[i].loops[l].node == n
    requires forall k :: i < k < j ==> !Acts(steps[k], l, n) || steps[k] == SeeDead(l)
    ensures l in states[j].loops && states[j].loops[l].node == n
    ensures var phase := states[j].loops[l].phase;
            && (phase.Saw? || phase.Trying?)
            && phase.revision == (if states[i].key.Some? then states[i].modRevision else 0)
            && phase.epoch == if states[i].key.Some? then states[i].key.value.epoch else 0
    decreases j
  {
    assert RunsStep(states, steps, j - 1);
    if i + 1 < j {
      ReadStays(states, steps, i, j - 1, l, n);
    }
  }

  /** The revision of the key changes exactly with the takeovers. */
  lemma {:induction false} RevisionCounts(states: seq<State>, steps: seq<Step>, i: nat, j: nat)
    requires Run(states, steps) && i <= j < |states|
    ensures states[i].winners <= states[j].winners && states[i].modRevision <= states[j].modRevision
    ensures states[i].modRevision == states[j].modRevision <==> states[i].winners == states[j].winners
    decreases j
  {
    if i < j {
      RevisionCounts(states, steps, i, j - 1);
      InvariantHolds(states, steps, j - 1);
      assert RunsStep(states, steps, j - 1);
      RevisionStep(states[j - 1], steps[j - 1]);
    }
  }

  lemma RevisionStep(s: State, step: Step)
    requires Inv(s) && Enabled(s, step)
    ensures var t := Apply(s, step);
            && s.winners <= t.winners && s.modRevision <= t.modRevision
            && (s.modRevision == t.modRevision <==> s.winners == t.winners)
  {
  }

  /** A takeover succeeds if and only if nobody has taken over since the loop read the key, and the node's
      own key is as the loop read it. Then the node is in the key with the next epoch, whether or not the
      loop hears of it; otherwise nothing has changed and the loop starts again. */
  lemma TakeOverSucceedsIff(states: seq<State>, steps: seq<Step>, i: nat, j: nat, l: LoopId, n: NodeId, same: bool,
                            lost: bool)
    requires Run(states, steps) && i < j < |steps| && steps[i] == Read(l)
    requires steps[j] == if lost then TakeOverReplyLost(l, same) else TakeOver(l, same)
    requires l in states[i].loops && states[i].loops[l].node == n
    requires forall k :: i < k < j ==> !Acts(steps[k], l, n) || steps[k] == SeeDead(l)
    ensures states[i].winners <= states[j].winners && l in states[j].loops && l in states[j + 1].loops
    ensures var epoch := |states[i].winners| + 1;
            if states[j].winners == states[i].winners && same then
              && states[j + 1].winners == states[j].winners + [n]
              && states[j + 1].key == Some(ControllerState(n, epoch))
              && states[j + 1].loops[l] == Loop(n, if lost then Looping else Elected(epoch))
            else
              states[j + 1] == SetPhase(states[j], l, Looping)
  {
    assert RunsStep(states, steps, j);
    ReadStays(states, steps, i, j, l, n);
    RevisionCounts(states, steps, i, j);
    InvariantHolds(states, steps, i);
  }

  // --- Stepping down ---

  /** The step takes node n out of the controller role: its session is lost, another controller is
      announced or seen, or its process starts again. */
  predicate StepsDown(s: State, step: Step, n: NodeId) {
    || step == SessionLoss(n) || step == Restart(n) || (step.WatchEvent? && step.node == n)
    || (step.SeeAlive? && step.loop in s.loops && s.loops[step.loop].node == n)
  }

  predicate Promotes(s: State, step: Step, n: NodeId) {
    step.BecomeController? && step.loop in s.loops && s.loops[step.loop].node == n
  }

  /** A node that has stepped down is no controller until a loop of its own that was elected makes it one. */
  lemma {:induction false} StaysDown(states: seq<State>, steps: seq<Step>, i: nat, j: nat, n: NodeId)
    requires Run(states, steps) && i < j < |states| && StepsDown(states[i], steps[i], n)
    requires forall k :: i < k < j ==> !Promotes(states[k], steps[k], n)
    ensures n in states[j].nodes && !states[j].nodes[n].role.Controller?
    decreases j
  {
    assert RunsStep(states, steps, j - 1);
    if i + 1 < j {
      StaysDown(states, steps, i, j - 1, n);
    }
  }

  /** A session can be lost whenever its node is not in the middle of a switch, and a process can start again
      at any time: role, epoch and loops are gone, and the key stays as it is. */
  lemma AnyNodeCanFail(s: State, n: NodeId)
    requires n in s.nodes
    ensures Unlocked(s, n) ==>
              Enabled(s, SessionLoss(n)) && Apply(s, SessionLoss(n)) == SetNode(s, n, s.nodes[n].(role := Follower))
    ensures Enabled(s, Restart(n))
    ensures var t := Apply(s, Restart(n));
            && t.key == s.key && t.winners == s.winners && t.nodes == s.nodes[n := Node(Unroled, 0, None)]
            && forall l :: l in t.loops <==> l in s.loops && s.loops[l].node != n
  {
  }

  /** A node that follows another controller ends up with that controller's epoch. */
  lemma FollowsWithEpoch(s: State, n: NodeId, epoch: nat)
    requires Inv(s) && Enabled(s, WatchEvent(n, epoch))
    ensures var t := Apply(s, WatchEvent(n, epoch));
            Enabled(t, FinishSwitch(n)) && Apply(t, FinishSwitch(n)) == SetNode(s, n, Node(Follower, epoch, None))
    ensures forall l :: Enabled(s, SeeAlive(l)) && s.loops[l].node == n && s.loops[l].phase.epoch == epoch ==>
              var t := Apply(s, SeeAlive(l));
              && Enabled(t, FinishSwitch(n))
              && Apply(t, FinishSwitch(n)) == SetPhase(SetNode(s, n, Node(Follower, epoch, None)), l, Looping)
  {
    hide Inv, Won;
  }

  // --- Node 0 ---

  /** Every settled controller has won the epoch it has. */
  ghost predicate ControllersElected(states: seq<State>) {
    forall i, n {:trigger SettledController(states[i], n)} ::
      0 <= i < |states| && SettledController(states[i], n) ==> Won(states[i].winners, n, states[i].nodes[n].epoch)
  }

  lemma NodesStayInStep(s: State, step: Step)
    requires Enabled(s, step)
    ensures Apply(s, step).nodes.Keys == s.nodes.Keys
  {
    var s' := Apply(s, step);
    assert forall n :: n in s'.nodes <==> n in s.nodes;
  }

  lemma {:induction false} NodesStay(states: seq<State>, steps: seq<Step>, i: nat)
    requires Run(states, steps) && i < |states|
    ensures states[i].nodes.Keys == states[0].nodes.Keys
  {
    if i > 0 {
      NodesStay(states, steps, i - 1);
      assert RunsStep(states, steps, i - 1);
      NodesStayInStep(states[i - 1], steps[i - 1]);
    }
  }

  function ZeroStep(i: nat): Step {
    [Spawn(1, 0), Read(1), Recognise(1), BecomeController(1), FinishSwitch(0)][if i < 5 then i else 4]
  }

  /** The state after the first i steps. */
  function ZeroRun(nodes: set<NodeId>, i: nat): State {
    var others := map n | n in nodes :: Node(Unroled, 0, None);
    var loops: map<LoopId, Loop> :=
      if i == 0 then map[] else if i == 1 then map[1 := Loop(0, Looping)]
      else if i == 2 then map[1 := Loop(0, Saw(None, 0, 0))] else if i == 3 then map[1 := Loop(0, Elected(0))]
      else map[1 := Loop(0, Holding)];
    State(None, 0, 0, if i < 4 then others else if i == 4 then others[0 := Node(Controller, 0, Some(0))]
                      else others[0 := Node(Controller, 0, None)], loops, [])
  }

  lemma ZeroRunSteps(nodes: set<NodeId>, i: nat)
    requires 0 in nodes && i < 5
    ensures Enabled(ZeroRun(nodes, i), ZeroStep(i)) && Apply(ZeroRun(nodes, i), ZeroStep(i)) == ZeroRun(nodes, i + 1)
  {
  }

  lemma ZeroRunBounds(nodes: set<NodeId>)
    requires 0 in nodes
    ensures Init(ZeroRun(nodes, 0)) && ZeroRun(nodes, 0).nodes.Keys == nodes
    ensures SettledController(ZeroRun(nodes, 5), 0) && ZeroRun(nodes, 5).key == None
    ensures !Won(ZeroRun(nodes, 5).winners, 0, ZeroRun(nodes, 5).nodes[0].epoch)
  {
  }

  /** A node whose id is 0 takes an absent key for its own and becomes controller without an election. */
  lemma NodeZeroIsNotElected(nodes: set<NodeId>) returns (states: seq<State>, steps: seq<Step>)
    requires 0 in nodes
    ensures Run(states, steps) && states[0].nodes.Keys == nodes && !ControllersElected(states)
  {
    hide Apply, Enabled, ZeroRun;
    states := seq(6, i requires 0 <= i => ZeroRun(nodes, i));
    steps := seq(5, i requires 0 <= i => ZeroStep(i));
    forall i | 0 <= i < |steps| ensures RunsStep(states, steps, i) {
      ZeroRunSteps(nodes, i);
    }
    ZeroRunBounds(nodes);
    assert SettledController(states[5], 0);
  }

  /** In all runs of a cluster every controller has been elected, if and only if no node has the id 0. */
  lemma ElectedIffNoNodeZero(nodes: set<NodeId>)
    ensures (forall states: seq<State>, steps: seq<Step> :: Run(states, steps) && states[0].nodes.Keys == nodes
                                     ==> ControllersElected(states))
            <==> 0 !in nodes
  {
    if 0 in nodes {
      var states, steps := NodeZeroIsNotElected(nodes);
    } else {
      forall states: seq<State>, steps: seq<Step> | Run(states, steps) && states[0].nodes.Keys == nodes
        ensures ControllersElected(states)
      {
        forall i, n | 0 <= i < |states| && SettledController(states[i], n)
          ensures Won(states[i].winners, n, states[i].nodes[n].epoch)
        {
          OneControllerPerEpoch(states, steps, i);
          NodesStay(states, steps, i);
          assert n in states[i].nodes.Keys;
        }
      }
    }
  }

  // --- Between the two assignments of a switch ---

  function SplitStep(i: nat): Step {
    [Spawn(1, 1), Read(1), SeeDead(1), TakeOver(1, true), BecomeController(1), FinishSwitch(1), WatchEvent(2, 1),
     FinishSwitch(2), Spawn(2, 2), Read(2), SeeDead(2), TakeOver(2, true), BecomeController(2)][if i < 13 then i else 12]
  }

  function SplitNodes(i: nat): map<NodeId, Node> {
    var first := if i < 5 then Node(Unroled, 0, None)
                 else if i < 6 then Node(Controller, 0, Some(1)) else Node(Controller, 1, None);
    var second := if i < 7 then Node(Unroled, 0, None)
                  else if i < 8 then Node(Follower, 0, Some(1))
                  else if i < 13 then Node(Follower, 1, None) else Node(Controller, 1, Some(2));
    map[1 := first, 2 := second]
  }

  function SplitLoops(i: nat): map<LoopId, Loop> {
    if i == 0 then map[]
    else if i == 1 then map[1 := Loop(1, Looping)]
    else if i == 2 then map[1 := Loop(1, Saw(None, 0, 0))]
    else if i == 3 then map[1 := Loop(1, Trying(0, 0))]
    else if i == 4 then map[1 := Loop(1, Elected(1))]
    else if i < 9 then map[1 := Loop(1, Holding)]
    else if i == 9 then map[1 := Loop(1, Holding), 2 := Loop(2, Looping)]
    else if i == 10 then map[1 := Loop(1, Holding), 2 := Loop(2, Saw(Some(1), 1, 1))]
    else if i == 11 then map[1 := Loop(1, Holding), 2 := Loop(2, Trying(1, 1))]
    else if i == 12 then map[1 := Loop(1, Holding), 2 := Loop(2, Elected(2))]
    else map[1 := Loop(1, Holding), 2 := Loop(2, Holding)]
  }

  /** The state after the first i steps. */
  function SplitRun(i: nat): State {
    var writes := if i < 4 then 0 else if i < 12 then 1 else 2;
    State(if writes == 0 then None else Some(ControllerState(writes, writes)), writes, writes,
          SplitNodes(i), SplitLoops(i), if writes == 0 then [] else if writes == 1 then [1] else [1, 2])
  }

  lemma SplitRunStarts(i: nat)
    requires i < 4
    ensures Enabled(SplitRun(i), SplitStep(i)) && Apply(SplitRun(i), SplitStep(i)) == SplitRun(i + 1)
  {
  }

  lemma SplitRunSwitches(i: nat)
    requires 4 <= i < 9
    ensures Enabled(SplitRun(i), SplitStep(i)) && Apply(SplitRun(i), SplitStep(i)) == SplitRun(i + 1)
  {
  }

  lemma SplitRunEnds(i: nat)
    requires 9 <= i < 13
    ensures Enabled(SplitRun(i), SplitStep(i)) && Apply(SplitRun(i), SplitStep(i)) == SplitRun(i + 1)
  {
  }

  /** Role and epoch do not change as one for a reader that does not take the node's lock: a node that
      has followed a controller of epoch 1 and takes over from it is, until its second assignment, a
      controller with epoch 1 beside the old one, which has not noticed its lost session. By
      OneControllerPerEpoch this needs a node between the two assignments. */
  lemma SameEpochBetweenAssignments() returns (states: seq<State>, steps: seq<Step>)
    ensures Run(states, steps)
    ensures var s := states[|steps|];
            && 1 in s.nodes && 2 in s.nodes && s.nodes[1].role.Controller? && s.nodes[2].role.Controller?
            && s.nodes[1].epoch == s.nodes[2].epoch
            && SettledController(s, 1) && s.nodes[2].switching.Some?
  {
    hide Apply, Enabled, SplitNodes, SplitLoops;
    states, steps := seq(14, i requires 0 <= i => SplitRun(i)), seq(13, i requires 0 <= i => SplitStep(i));
    forall i | 0 <= i < |steps| ensures RunsStep(states, steps, i) {
      if i < 4 {
        SplitRunStarts(i);
      } else if i < 9 {
        SplitRunSwitches(i);
      } else {
        SplitRunEnds(i);
      }
    }
    SplitRunBounds();
  }

  lemma SplitRunBounds()
    ensures Init(SplitRun(0))
    ensures SplitNodes(13) == map[1 := Node(Controller, 1, None), 2 := Node(Controller, 1, Some(2))]
  {
  }
}
