/** No node is lost: what has been added is in the list, in a batch, or destroyed, and a release that nobody delays
    leaves nothing behind. */
module NodeRecyclerOutcomes {
  import opened Wrappers
  import opened NodeRecycler

  ghost predicate InBatch(s: State, node: nat) {
    exists t: nat :: t < |s.accessors| && node in s.accessors[t].batch
  }

  /** Every node that has been added is somewhere. */
  ghost predicate Conserved(s: State) {
    forall node: nat :: node in s.added <==> node in s.nodes || node in s.destroyed || InBatch(s, node)
  }

  /** A list that is not empty is flagged, or about to be; one that is empty is not flagged, or about not to be. */
  ghost predicate Flagged(s: State) {
    && (s.nodes != {} ==> s.dirty || exists t: nat :: t < |s.accessors| && s.accessors[t].phase == AddDirty)
    && (s.nodes == {} ==> !s.dirty || exists t: nat :: t < |s.accessors| && s.accessors[t].phase == ClearDirty)
    && (forall t: nat :: t < |s.accessors| && s.accessors[t].phase == ClearDirty ==> s.nodes == {})
    && forall t: nat :: t < |s.accessors| && s.accessors[t].phase == AddDirty ==> s.nodes != {}
  }

  /** An accessor that is past the list has put its node into it. */
  ghost predicate Pushed(s: State, a: Accessor) {
    a.phase == AddDirty || a.phase == AddUnlock ==> a.node in s.added
  }

  // ---- Every step ----

  /** The batch of the accessor that takes the step, node by node. */
  lemma {:induction false} NodeMoves(s: State, t: nat, choice: Choice, node: nat)
    requires Placed(s) && t < |s.accessors|
    ensures var s' := Step(s, t, choice); var a, a' := s.accessors[t], s'.accessors[t];
            && t < |s'.accessors|
            && (node in s'.added <==> node in s.added || (a.phase == AddPush && node == a.node))
            && ((node in s'.nodes || node in s'.destroyed || node in a'.batch) <==>
                (node in s.nodes || node in s.destroyed || node in a.batch || (a.phase == AddPush && node == a.node)))
  {
    hide Step, Apart;
    assert BatchPlaced(s, s.accessors[t]);
    StepSets(s, t, choice);
    var s' := Step(s, t, choice);
    assert node in s'.added <==> node in s'.added.Keys;
  }

  lemma {:induction false} ConservedKept(s: State, t: nat, choice: Choice)
    requires Placed(s) && Conserved(s) && t < |s.accessors|
    ensures Conserved(Step(s, t, choice))
  {
    hide Step, Placed;
    var s' := Step(s, t, choice);
    SameAccessors(s, t, choice);
    forall node: nat
      ensures node in s'.added <==> node in s'.nodes || node in s'.destroyed || InBatch(s', node)
    {
      NodeMoves(s, t, choice, node);
      OtherBatches(s, s', t, node);
    }
  }

  lemma {:induction false} OtherBatches(s: State, s': State, t: nat, node: nat)
    requires t < |s.accessors| && |s'.accessors| == |s.accessors|
    requires forall u: nat :: u < |s.accessors| && u != t ==> s'.accessors[u] == s.accessors[u]
    ensures InBatch(s', node) || node in s.accessors[t].batch <==> InBatch(s, node) || node in s'.accessors[t].batch
  {
    if u: nat :| u < |s.accessors| && node in s.accessors[u].batch {
      assert u == t || node in s'.accessors[u].batch;
    }
    if u: nat :| u < |s.accessors| && node in s'.accessors[u].batch {
      assert u == t || node in s.accessors[u].batch;
    }
  }

  lemma {:induction false} FlaggedKept(s: State, t: nat, choice: Choice)
    requires Flagged(s) && LockOwned(s) && t < |s.accessors|
    ensures Flagged(Step(s, t, choice))
  {
    hide Step, LockOwned;
    LockPhases(s, t);
    SameAccessors(s, t, choice);
    FlagMoves(s, t, choice);
    var s' := Step(s, t, choice);
    if s'.nodes != {} && !s'.dirty && s.accessors[t].phase != AddPush {
      var u: nat :| u < |s.accessors| && s.accessors[u].phase == AddDirty;
      assert u != t && s'.accessors[u].phase == AddDirty;
    }
    if s'.nodes == {} && s'.dirty && s.accessors[t].phase != Swap {
      var u: nat :| u < |s.accessors| && s.accessors[u].phase == ClearDirty;
      assert u != t && s'.accessors[u].phase == ClearDirty;
    }
  }

  /** The list and its flag after a step. */
  lemma {:induction false} FlagMoves(s: State, t: nat, choice: Choice)
    requires t < |s.accessors|
    ensures var s' := Step(s, t, choice); var a := s.accessors[t];
            && t < |s'.accessors|
            && s'.nodes == (if a.phase == AddPush then s.nodes + {a.node} else if a.phase == Swap then {} else s.nodes)
            && s'.dirty == (if a.phase == AddDirty then true else if a.phase == ClearDirty then false else s.dirty)
            && (a.phase == AddPush ==> s'.accessors[t].phase == AddDirty)
            && (s'.accessors[t].phase == AddDirty ==> a.phase == AddPush)
            && (s'.accessors[t].phase == ClearDirty <==> a.phase == Swap)
  {
    hide Fresh, Alive, HoldsLock;
  }

  /** Whoever handles the flag holds the lock, so it is alone in doing so. */
  lemma {:induction false} LockPhases(s: State, t: nat)
    requires LockOwned(s) && t < |s.accessors|
    ensures s.accessors[t].phase in {AddPush, AddDirty, Swap, ClearDirty} ==> forall u: nat ::
              u < |s.accessors| && u != t ==>
                s.accessors[u].phase != AddDirty && s.accessors[u].phase != ClearDirty
  {
  }

  lemma {:induction false} PushedKept(s: State, t: nat, choice: Choice, u: nat)
    requires t < |s.accessors| && u < |s.accessors| && Pushed(s, s.accessors[u])
    ensures u < |Step(s, t, choice).accessors| && Pushed(Step(s, t, choice), Step(s, t, choice).accessors[u])
  {
    hide Fresh, Alive, HoldsLock;
  }

  ghost predicate Whole(s: State) {
    Conserved(s) && Flagged(s) && forall t: nat :: t < |s.accessors| ==> Pushed(s, s.accessors[t])
  }

  lemma {:induction false} RunIsWhole(run: seq<State>, n: nat)
    requires Reachable(run) && n < |run|
    ensures Whole(run[n])
    decreases n
  {
    hide Inv, Step, Conserved, Flagged, Pushed;
    if n == 0 {
      StartIsWhole(run[0]);
    } else {
      RunIsWhole(run, n - 1);
      RunKeepsInv(run, n - 1);
      assert Next(run[n - 1], run[n]);
      var t: nat, choice :| t < |run[n - 1].accessors| && run[n] == Step(run[n - 1], t, choice);
      StepIsWhole(run[n - 1], t, choice);
    }
  }

  lemma {:induction false} StartIsWhole(s: State)
    requires Init(s)
    ensures Whole(s)
  {
  }

  lemma {:induction false} StepIsWhole(s: State, t: nat, choice: Choice)
    requires Inv(s) && Whole(s) && t < |s.accessors|
    ensures Whole(Step(s, t, choice))
  {
    hide Step, Conserved, Flagged, Pushed, Placed, LockOwned;
    ConservedKept(s, t, choice);
    FlaggedKept(s, t, choice);
    SameAccessors(s, t, choice);
    forall u: nat | u < |s.accessors|
      ensures Pushed(Step(s, t, choice), Step(s, t, choice).accessors[u])
    {
      PushedKept(s, t, choice, u);
    }
  }

  /** In every state of every run the nodes that have been added are those in the list, in a batch, or destroyed. */
  lemma {:induction false} NoNodeIsLost(run: seq<State>, n: nat, node: nat)
    requires Reachable(run) && n < |run|
    ensures node in run[n].added <==>
              node in run[n].nodes || node in run[n].destroyed || InBatch(run[n], node)
  {
    hide Reachable, InBatch, Flagged, Pushed;
    RunIsWhole(run, n);
  }

  /** While nobody holds the lock, the list is flagged as dirty exactly if it is not empty. */
  lemma {:induction false} ListIsFlagged(run: seq<State>, n: nat)
    requires Reachable(run) && n < |run| && run[n].lock == None
    ensures run[n].dirty <==> run[n].nodes != {}
  {
    hide Reachable, Conserved, Pushed, Counted, Placed, Times, Taking, Doomed, Unseen;
    RunIsWhole(run, n);
    RunKeepsInv(run, n);
  }

  // ---- The release of the last reference ----

  /** Accessor t has taken the list in state m and not yet finished in state n. */
  ghost predicate Finishing(run: seq<State>, m: nat, n: nat, t: nat) {
    && m < n < |run| && t < |run[m].accessors| && run[m].accessors[t].phase == Swap
    && forall r: nat :: m < r < n ==>
        t < |run[r].accessors| && run[r].accessors[t].phase in {ClearDirty, ReleaseUnlock, Destroy}
  }

  lemma {:induction false} FinishStep(s: State, u: nat, choice: Choice, t: nat)
    requires Placed(s) && u < |s.accessors| && t < |s.accessors|
    ensures var s' := Step(s, u, choice);
            && t < |s'.accessors| && s.destroyed <= s'.destroyed
            && (u != t ==> s'.accessors[t] == s.accessors[t])
            && (s.accessors[t].phase == Swap && u == t ==>
                  s'.accessors[t].batch == s.nodes && s'.accessors[t].phase == ClearDirty)
            && (s.accessors[t].phase in {ClearDirty, ReleaseUnlock, Destroy} ==>
                  s.accessors[t].batch <= s'.accessors[t].batch + s'.destroyed)
            && (s'.accessors[t].phase == Outside && s.accessors[t].phase in {ClearDirty, ReleaseUnlock, Destroy} ==>
                  s'.accessors[t].batch == {})
  {
    hide Fresh, Alive, HoldsLock;
    assert BatchPlaced(s, s.accessors[u]);
  }

  lemma {:induction false} ListIsHandled(run: seq<State>, m: nat, n: nat, t: nat)
    requires Reachable(run) && Finishing(run, m, n, t)
    requires m + 1 == n ==> t < |run[n].accessors| && run[n].accessors[t].phase != Swap
    ensures t < |run[n].accessors| && run[m].nodes <= run[n].destroyed + run[n].accessors[t].batch
    ensures run[n].accessors[t].phase == Outside ==> run[n].accessors[t].batch == {}
    decreases n
  {
    hide Inv, Step, Placed;
    assert Next(run[n - 1], run[n]);
    var u: nat, choice :| u < |run[n - 1].accessors| && run[n] == Step(run[n - 1], u, choice);
    RunKeepsInv(run, n - 1);
    InvPlaced(run[n - 1]);
    FinishStep(run[n - 1], u, choice, t);
    if n - 1 > m { ListIsHandled(run, m, n - 1, t); }
  }

  lemma {:induction false} InvPlaced(s: State)
    requires Inv(s)
    ensures Placed(s) && Counted(s) && LockOwned(s)
  {
    hide Placed, Counted, LockOwned, Times, Taking, Doomed, Unseen;
  }

  /** Everything in the list when the last reference is released under the lock is destroyed by the accessor that
      released it, before it returns; whatever others do meanwhile. */
  lemma {:induction false} LastReleaseDestroys(run: seq<State>, m: nat, n: nat, t: nat)
    requires Reachable(run) && Finishing(run, m, n, t) && t < |run[n].accessors| && run[n].accessors[t].phase == Outside
    ensures run[m].nodes <= run[n].destroyed
  {
    hide Reachable;
    ListIsHandled(run, m, n, t);
  }

  // ---- An accessor that nobody else disturbs ----

  ghost predicate OthersOutside(s: State, t: nat) {
    t < |s.accessors| && forall u: nat :: u < |s.accessors| && u != t ==> s.accessors[u].phase == Outside
  }

  /** Accessor t is alone from taking its reference after state b until it is outside again in state n. */
  ghost predicate Alone(run: seq<State>, b: nat, n: nat, t: nat) {
    && b + 1 < n < |run| && OthersOutside(run[b], t) && run[b].accessors[t].phase == Outside
    && forall r: nat :: b < r < n ==> OthersOutside(run[r], t) && run[r].accessors[t].phase != Outside
  }

  lemma {:induction false} OnlyReference(s: State, t: nat)
    requires Counted(s) && OthersOutside(s, t) && Alive(s.accessors[t])
    ensures s.refs == 1
  {
    hide CountAlive;
    var a := s.accessors[t].(phase := Outside);
    CountUpdate(s.accessors, t, a);
    CountOutside(s.accessors[t := a]);
  }

  /** What is left in the list, by the accessor's phase. */
  ghost predicate Left(s: State, t: nat) {
    t < |s.accessors| && (s.accessors[t].phase in {FastDecrement, ClearDirty, ReleaseUnlock, Destroy} ==> s.nodes == {})
  }

  lemma {:induction false} AloneStep(s: State, t: nat, choice: Choice)
    requires Inv(s) && Flagged(s) && OthersOutside(s, t) && s.accessors[t].phase != Outside && Left(s, t)
    ensures var s' := Step(s, t, choice);
            Left(s', t) && (s'.accessors[t].phase == Outside ==> s'.nodes == {})
  {
    hide Fresh, CountAlive, Placed, Times, Taking, Doomed, Unseen;
    var a := s.accessors[t];
    if Alive(a) { OnlyReference(s, t); }
    if a.phase == ReadDirty && !s.dirty { NotFlaggedIsEmpty(s, t); }
  }

  lemma {:induction false} NotFlaggedIsEmpty(s: State, t: nat)
    requires Flagged(s) && OthersOutside(s, t) && s.accessors[t].phase == ReadDirty && !s.dirty
    ensures s.nodes == {}
  {
  }

  lemma {:induction false} AloneRun(run: seq<State>, b: nat, n: nat, t: nat)
    requires Reachable(run) && Alone(run, b, n, t) && t < |run[n].accessors|
    requires OthersOutside(run[n], t)
    ensures Left(run[n], t) && (run[n].accessors[t].phase == Outside ==> run[n].nodes == {})
    decreases n
  {
    hide Inv, Step, Left, Conserved, Flagged, Pushed;
    RunKeepsInv(run, n - 1);
    RunIsWhole(run, n - 1);
    assert Next(run[n - 1], run[n]);
    var u: nat, choice :| u < |run[n - 1].accessors| && run[n] == Step(run[n - 1], u, choice);
    if u != t { Enters(run[n - 1], u, choice); }
    if n - 1 == b + 1 { FirstInside(run, b, t); } else { AloneRun(run, b, n - 1, t); }
    AloneStep(run[n - 1], t, choice);
  }

  /** An accessor that steps from outside takes a reference. */
  lemma {:induction false} Enters(s: State, u: nat, choice: Choice)
    requires u < |s.accessors| && s.accessors[u].phase == Outside
    ensures u < |Step(s, u, choice).accessors| && Step(s, u, choice).accessors[u].phase == Inside
  {
  }

  lemma {:induction false} FirstInside(run: seq<State>, b: nat, t: nat)
    requires Reachable(run) && b + 1 < |run| && t < |run[b].accessors| && run[b].accessors[t].phase == Outside
    requires t < |run[b + 1].accessors| && run[b + 1].accessors[t].phase != Outside
    ensures Left(run[b + 1], t)
  {
    hide Step;
    assert Next(run[b], run[b + 1]);
    var u: nat, choice :| u < |run[b].accessors| && run[b + 1] == Step(run[b], u, choice);
    SameAccessors(run[b], u, choice);
    Enters(run[b], t, choice);
  }

  /** An accessor that is alone from taking its reference to having released it leaves the list empty, and every node
      that was ever added destroyed. */
  lemma {:induction false} AloneLeavesNothing(run: seq<State>, b: nat, n: nat, t: nat, node: nat)
    requires Reachable(run) && Alone(run, b, n, t) && OthersOutside(run[n], t) && run[n].accessors[t].phase == Outside
    ensures run[n].nodes == {} && (node in run[n].added <==> node in run[n].destroyed)
  {
    hide Reachable, Counted, LockOwned, Times, Taking, Doomed, Unseen, Apart;
    AloneRun(run, b, n, t);
    NoNodeIsLost(run, n, node);
    RunKeepsInv(run, n);
    forall u: nat | u < |run[n].accessors|
      ensures run[n].accessors[u].batch == {}
    {
      assert BatchPlaced(run[n], run[n].accessors[u]);
    }
  }

  // ---- Adding a node ----

  /** The state after k steps of accessor t and of nobody else. */
  function Solo(s: State, t: nat, choice: Choice, k: nat): (s': State)
    requires t < |s.accessors|
    ensures |s'.accessors| == |s.accessors|
    decreases k
  {
    hide Fresh;
    if k == 0 then s else Step(Solo(s, t, choice, k - 1), t, choice)
  }

  /** An accessor that finds the lock free puts a new node into the list, flags the list, gives the lock back and goes
      on; it changes nothing else. */
  lemma {:induction false} AddIsDone(s: State, t: nat, choice: Choice)
    requires t < |s.accessors| && s.accessors[t].phase == Inside && choice.adds && Fresh(s, choice.node) &&
             s.lock == None
    ensures var s' := Solo(s, t, choice, 5);
            && s'.accessors[t].phase == Inside && s'.lock == None && s'.dirty && s'.refs == s.refs
            && s'.nodes == s.nodes + {choice.node} && s'.destroyed == s.destroyed && choice.node in s'.added
  {
    var one := Solo(s, t, choice, 1);
    assert one.accessors[t].phase == AddLock && one.accessors[t].node == choice.node && one.lock == None;
    var two := Solo(s, t, choice, 2);
    assert two == Step(one, t, choice) && two.accessors[t].phase == AddPush;
    var three := Solo(s, t, choice, 3);
    assert three == Step(two, t, choice) && three.accessors[t].phase == AddDirty;
    var four := Solo(s, t, choice, 4);
    assert four == Step(three, t, choice) && four.accessors[t].phase == AddUnlock;
  }

  /** What has been added stays recorded: the accessor that leaves the list has put its node into it. */
  lemma {:induction false} AddedIsRecorded(run: seq<State>, n: nat, t: nat)
    requires Reachable(run) && n < |run| && t < |run[n].accessors|
    requires run[n].accessors[t].phase == AddDirty || run[n].accessors[t].phase == AddUnlock
    ensures run[n].accessors[t].node in run[n].added
  {
    hide Reachable, Conserved, Flagged;
    RunIsWhole(run, n);
  }

  // ---- Getting on ----

  /** The steps an accessor still has to take until it is inside or outside. */
  function Cost(s: State, a: Accessor): nat {
    match a.phase
    case AddLock => 4
    case AddPush => 3
    case AddDirty => 2
    case AddUnlock => 1
    case ReadDirty => |s.nodes| + |a.batch| + 8
    case ReadRefs => |s.nodes| + |a.batch| + 7
    case ReleaseLock => |s.nodes| + |a.batch| + 6
    case Decrement => |s.nodes| + |a.batch| + 5
    case Swap => |s.nodes| + 4
    case ClearDirty => |a.batch| + 3
    case ReleaseUnlock => |a.batch| + 2
    case Destroy => |a.batch| + 1
    case FastDecrement => 1
    case _ => 0
  }

  /** The environment names a node of the batch that is being destroyed. */
  predicate Sensible(a: Accessor, choice: Choice) {
    a.phase == Destroy && a.batch != {} ==> choice.node in a.batch
  }

  /** Accessor t finds the lock taken. */
  predicate Blocked(s: State, t: nat) {
    t < |s.accessors| && s.accessors[t].phase in {AddLock, ReleaseLock} && s.lock != None
  }

  lemma {:induction false} AddsOn(s: State, t: nat, choice: Choice)
    requires t < |s.accessors| && s.accessors[t].phase in {AddLock, AddPush, AddDirty, AddUnlock} && !Blocked(s, t)
    ensures var s' := Step(s, t, choice); t < |s'.accessors| && Cost(s', s'.accessors[t]) < Cost(s, s.accessors[t])
  {
    hide Fresh;
  }

  lemma {:induction false} ReleasesOn(s: State, t: nat, choice: Choice)
    requires t < |s.accessors| && s.accessors[t].phase in {ReadDirty, ReadRefs, FastDecrement, ReleaseLock,
                                                           Decrement} && !Blocked(s, t)
    ensures var s' := Step(s, t, choice); t < |s'.accessors| && Cost(s', s'.accessors[t]) < Cost(s, s.accessors[t])
  {
    hide Fresh;
  }

  lemma {:induction false} TakesList(s: State, t: nat, choice: Choice)
    requires t < |s.accessors| && s.accessors[t].phase in {Swap, ClearDirty, ReleaseUnlock} && !Blocked(s, t)
    ensures var s' := Step(s, t, choice); t < |s'.accessors| && Cost(s', s'.accessors[t]) < Cost(s, s.accessors[t])
  {
    hide Fresh;
  }

  lemma {:induction false} Destroys(s: State, t: nat, choice: Choice)
    requires t < |s.accessors| && s.accessors[t].phase == Destroy && !Blocked(s, t) &&
             Sensible(s.accessors[t], choice)
    ensures var s' := Step(s, t, choice); t < |s'.accessors| && Cost(s', s'.accessors[t]) < Cost(s, s.accessors[t])
  {
    hide Fresh;
    var a := s.accessors[t];
    if a.batch != {} { Fewer(a.batch, choice.node); }
  }

  lemma {:induction false} GoesOn(s: State, t: nat, choice: Choice)
    requires t < |s.accessors| && s.accessors[t].phase !in {Outside, Inside} && Sensible(s.accessors[t], choice)
    requires !Blocked(s, t)
    ensures var s' := Step(s, t, choice); t < |s'.accessors| && Cost(s', s'.accessors[t]) < Cost(s, s.accessors[t])
  {
    hide Step, Cost, Blocked, Sensible;
    match s.accessors[t].phase
    case AddLock => AddsOn(s, t, choice);
    case AddPush => AddsOn(s, t, choice);
    case AddDirty => AddsOn(s, t, choice);
    case AddUnlock => AddsOn(s, t, choice);
    case Swap => TakesList(s, t, choice);
    case ClearDirty => TakesList(s, t, choice);
    case ReleaseUnlock => TakesList(s, t, choice);
    case Destroy => Destroys(s, t, choice);
    case _ => ReleasesOn(s, t, choice);
  }

  lemma {:induction false} Fewer(batch: set<nat>, node: nat)
    requires node in batch
    ensures |batch - {node}| < |batch|
  {
  }

  /** In every reachable state an accessor that adds a node or releases its reference gets on by its next step, or finds
      the lock taken; then another accessor has the lock, which gets on by its own next step. */
  lemma {:induction false} WaitsForTheLock(run: seq<State>, n: nat, t: nat, choice: Choice)
    requires Reachable(run) && n < |run| && t < |run[n].accessors| && Sensible(run[n].accessors[t], choice)
    requires run[n].accessors[t].phase !in {Outside, Inside}
    ensures if !Blocked(run[n], t)
            then var s' := Step(run[n], t, choice);
              t < |s'.accessors| && Cost(s', s'.accessors[t]) < Cost(run[n], run[n].accessors[t])
            else run[n].lock.Some? && run[n].lock.value != t && !Blocked(run[n], run[n].lock.value)
  {
    hide Reachable, Step, Cost, Placed, Counted, Times, Taking, Doomed, Unseen;
    RunKeepsInv(run, n);
    if !Blocked(run[n], t) { GoesOn(run[n], t, choice); }
  }
}
