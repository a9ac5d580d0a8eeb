/** Deferred destruction of unlinked nodes by counting accessors, as a state machine over atomic steps. */
module NodeRecycler {
  import opened Wrappers

  /** The point an accessor has reached; `Outside` before its reference is taken and after it is dropped. */
  datatype Phase =
    | Outside | Inside
    | AddLock | AddPush | AddDirty | AddUnlock
    | ReadDirty | ReadRefs | FastDecrement | ReleaseLock | Decrement | Swap | ClearDirty | ReleaseUnlock | Destroy

  /** An accessor: the node it is adding, whether its decrement was the last one, and the batch it destroys.
      `since` records when it took its reference and `dropped` when it gave it up. */
  datatype Accessor = Accessor(phase: Phase, node: nat, last: bool, batch: set<nat>, since: nat, dropped: nat)

  /** The recycler. `added` records when each node was put into the list. */
  datatype State = State(refs: int, dirty: bool, lock: Option<nat>, nodes: set<nat>, destroyed: set<nat>,
                         added: map<nat, nat>, accessors: seq<Accessor>, clock: nat)

  /** What the environment decides: whether to add a node and which, or to release; which node of the batch is next. */
  datatype Choice = Choice(adds: bool, node: nat)

  predicate Alive(a: Accessor) {
    match a.phase
    case Outside => false
    case Swap => false
    case ClearDirty => false
    case ReleaseUnlock => false
    case Destroy => false
    case _ => true
  }

  predicate HoldsLock(a: Accessor) {
    match a.phase
    case AddPush => true
    case AddDirty => true
    case AddUnlock => true
    case Decrement => true
    case Swap => true
    case ClearDirty => true
    case ReleaseUnlock => true
    case _ => false
  }

  /** A step of accessor t. A node is added by the accessor that has unlinked it, so only once. */
  function Step(s: State, t: nat, choice: Choice): State
    requires t < |s.accessors|
  {
    var a := s.accessors[t];
    var now := s.clock + 1;
    var tick := s.(clock := now);
    match a.phase
    case Outside => Go(tick.(refs := s.refs + 1), t, a.(phase := Inside, since := now, last := false, batch := {}))
    case Inside =>
      if choice.adds && Fresh(s, choice.node) then Go(tick, t, a.(phase := AddLock, node := choice.node))
      else Go(tick, t, a.(phase := ReadDirty))
    case AddLock => if s.lock == None then Go(tick.(lock := Some(t)), t, a.(phase := AddPush)) else tick
    case AddPush => Go(tick.(nodes := s.nodes + {a.node}, added := s.added[a.node := now]), t, a.(phase := AddDirty))
    case AddDirty => Go(tick.(dirty := true), t, a.(phase := AddUnlock))
    case AddUnlock => Go(tick.(lock := None), t, a.(phase := Inside))
    case ReadDirty => Go(tick, t, a.(phase := if s.dirty then ReadRefs else FastDecrement))
    case ReadRefs => Go(tick, t, a.(phase := if s.refs > 1 then FastDecrement else ReleaseLock))
    case FastDecrement => Go(tick.(refs := s.refs - 1), t, a.(phase := Outside, dropped := now))
    case ReleaseLock => if s.lock == None then Go(tick.(lock := Some(t)), t, a.(phase := Decrement)) else tick
    case Decrement =>
      Go(tick.(refs := s.refs - 1), t, a.(phase := if s.refs == 1 then Swap else ReleaseUnlock, last := s.refs == 1,
                                          dropped := now))
    case Swap => Go(tick.(nodes := {}), t, a.(phase := ClearDirty, batch := s.nodes))
    case ClearDirty => Go(tick.(dirty := false), t, a.(phase := ReleaseUnlock))
    case ReleaseUnlock => Go(tick.(lock := None), t, a.(phase := Destroy))
    case Destroy =>
      if a.batch == {} then Go(tick, t, a.(phase := Outside))
      else if choice.node in a.batch then Go(tick.(destroyed := s.destroyed + {choice.node}), t,
                                             a.(batch := a.batch - {choice.node}))
      else tick
  }

  predicate Adding(a: Accessor, node: nat) {
    (a.phase == AddLock || a.phase == AddPush) && a.node == node
  }

  /** Nobody has added this node, and nobody is adding it. */
  predicate Fresh(s: State, node: nat) {
    node !in s.added && forall u :: 0 <= u < |s.accessors| ==> !Adding(s.accessors[u], node)
  }

  function Go(s: State, t: nat, a: Accessor): State {
    if t < |s.accessors| then s.(accessors := s.accessors[t := a]) else s
  }

  ghost predicate Init(s: State) {
    && s.refs == 0 && !s.dirty && s.lock == None && s.nodes == {} && s.destroyed == {} && s.added == map[] &&
        s.clock == 0
    && forall t :: 0 <= t < |s.accessors| ==> s.accessors[t] == Accessor(Outside, 0, false, {}, 0, 0)
  }

  ghost predicate Next(s: State, s': State) {
    exists t: nat, choice :: t < |s.accessors| && s' == Step(s, t, choice)
  }

  ghost predicate Reachable(run: seq<State>) {
    |run| > 0 && Init(run[0]) && forall n :: 0 <= n < |run| - 1 ==> Next(run[n], run[n + 1])
  }

  // ---- The counter and the lock ----

  function CountAlive(accessors: seq<Accessor>): nat {
    if |accessors| == 0 then 0
    else CountAlive(accessors[..|accessors| - 1]) + if Alive(accessors[|accessors| - 1]) then 1 else 0
  }

  lemma {:induction false} CountUpdate(accessors: seq<Accessor>, t: nat, a: Accessor)
    requires t < |accessors|
    ensures CountAlive(accessors[t := a])
         == CountAlive(accessors) - (if Alive(accessors[t]) then 1 else 0) + if Alive(a) then 1 else 0
    decreases |accessors|
  {
    hide Alive;
    var n := |accessors| - 1;
    if t == n {
      assert accessors[t := a][..n] == accessors[..n];
    } else {
      assert accessors[t := a][..n] == accessors[..n][t := a];
      CountUpdate(accessors[..n], t, a);
    }
  }

  lemma {:induction false} NobodyAlive(accessors: seq<Accessor>)
    ensures CountAlive(accessors) == 0 ==> forall t :: 0 <= t < |accessors| ==> !Alive(accessors[t])
    decreases |accessors|
  {
    if |accessors| > 0 { NobodyAlive(accessors[..|accessors| - 1]); }
  }

  ghost predicate Counted(s: State) {
    s.refs == CountAlive(s.accessors)
  }

  ghost predicate LockOwned(s: State) {
    forall t: nat :: t < |s.accessors| ==> (HoldsLock(s.accessors[t]) <==> s.lock == Some(t))
  }

  lemma {:induction false} CountKept(s: State, t: nat, choice: Choice)
    requires Counted(s) && t < |s.accessors|
    ensures Counted(Step(s, t, choice))
  {
    hide CountAlive, Fresh;
    var s' := Step(s, t, choice);
    if s'.accessors != s.accessors { CountUpdate(s.accessors, t, s'.accessors[t]); }
  }

  lemma {:induction false} LockKept(s: State, t: nat, choice: Choice)
    requires LockOwned(s) && t < |s.accessors|
    ensures LockOwned(Step(s, t, choice))
  {
    hide CountAlive, Fresh;
    assert HoldsLock(s.accessors[t]) <==> s.lock == Some(t);
  }

  // ---- Where the nodes are ----

  /** A node is in the list, in one batch, or destroyed, and never in two of these. */
  ghost predicate Placed(s: State) {
    && s.nodes <= s.added.Keys && s.destroyed <= s.added.Keys && s.nodes !! s.destroyed
    && (forall t: nat :: t < |s.accessors| ==> BatchPlaced(s, s.accessors[t]))
    && (forall t: nat, u: nat :: t < |s.accessors| && u < |s.accessors| && t != u ==>
        Apart(s.accessors[t], s.accessors[u]))
  }

  ghost predicate BatchPlaced(s: State, a: Accessor) {
    && a.batch <= s.added.Keys && a.batch !! s.nodes && a.batch !! s.destroyed
    && (a.batch != {} ==> a.phase == ClearDirty || a.phase == ReleaseUnlock || a.phase == Destroy)
    && (Adding(a, a.node) ==> a.node !in s.added)
  }

  ghost predicate Apart(a: Accessor, b: Accessor) {
    a.batch !! b.batch && (Adding(a, a.node) ==> !Adding(b, a.node))
  }

  /** What a step does to the sets of nodes. */
  ghost predicate SetsAfter(s: State, a: Accessor, s': State, a': Accessor) {
    && s'.nodes == (if a.phase == AddPush then s.nodes + {a.node} else if a.phase == Swap then {} else s.nodes)
    && s'.added.Keys == s.added.Keys + (if a.phase == AddPush then {a.node} else {})
    && (if a.phase == Destroy && a.batch != a'.batch then
          && a'.batch + (s'.destroyed - s.destroyed) == a.batch
          && a'.batch !! s'.destroyed - s.destroyed && s.destroyed <= s'.destroyed
        else
          s'.destroyed == s.destroyed && a'.batch == if a.phase == Swap then s.nodes else a.batch)
    && (a'.batch != {} && a.batch != {} ==> a'.phase == ClearDirty || a'.phase == ReleaseUnlock || a'.phase == Destroy)
    && (a.batch == {} && a'.batch != {} ==> a.phase == Swap && a'.phase == ClearDirty && a'.batch == s.nodes)
    && (Adding(a', a'.node) ==> (Adding(a, a'.node) && a.phase != AddPush) || Fresh(s, a'.node))
  }

  /** Putting a node into the list. */
  lemma {:induction false} PushSets(s: State, t: nat, choice: Choice)
    requires t < |s.accessors| && s.accessors[t].phase == AddPush && s.accessors[t].batch == {}
    ensures var s' := Step(s, t, choice); t < |s'.accessors| && SetsAfter(s, s.accessors[t], s', s'.accessors[t])
  {
    hide Fresh, Alive, HoldsLock;
  }

  /** Taking the list as a batch. */
  lemma {:induction false} SwapSets(s: State, t: nat, choice: Choice)
    requires t < |s.accessors| && s.accessors[t].phase == Swap && s.accessors[t].batch == {}
    ensures var s' := Step(s, t, choice); t < |s'.accessors| && SetsAfter(s, s.accessors[t], s', s'.accessors[t])
  {
    hide Fresh, Alive, HoldsLock;
  }

  /** Destroying one node of the batch. */
  lemma {:induction false} DestroySets(s: State, t: nat, choice: Choice)
    requires t < |s.accessors| && s.accessors[t].phase == Destroy && s.accessors[t].batch !! s.destroyed
    ensures var s' := Step(s, t, choice); t < |s'.accessors| && SetsAfter(s, s.accessors[t], s', s'.accessors[t])
  {
    hide Fresh, Alive, HoldsLock;
  }

  /** Taking a reference, or starting to add a node. */
  lemma {:induction false} EntrySets(s: State, t: nat, choice: Choice)
    requires t < |s.accessors| && s.accessors[t].phase in {Outside, Inside, AddLock} && s.accessors[t].batch == {}
    ensures var s' := Step(s, t, choice); t < |s'.accessors| && SetsAfter(s, s.accessors[t], s', s'.accessors[t])
  {
    hide Fresh, Alive, HoldsLock;
  }

  /** The steps that leave the list alone. */
  lemma {:induction false} QuietSets(s: State, t: nat, choice: Choice)
    requires t < |s.accessors| && s.accessors[t].batch !! s.destroyed
    requires s.accessors[t].batch != {} ==> s.accessors[t].phase in {ClearDirty, ReleaseUnlock, Destroy}
    requires s.accessors[t].phase !in {Outside, Inside, AddLock, AddPush, Swap, Destroy}
    ensures var s' := Step(s, t, choice); t < |s'.accessors| && SetsAfter(s, s.accessors[t], s', s'.accessors[t])
  {
    hide Fresh, Alive, HoldsLock;
  }

  lemma {:induction false} StepSets(s: State, t: nat, choice: Choice)
    requires t < |s.accessors| && s.accessors[t].batch !! s.destroyed
    requires s.accessors[t].batch != {} ==> s.accessors[t].phase in {ClearDirty, ReleaseUnlock, Destroy}
    ensures var s' := Step(s, t, choice); t < |s'.accessors| && SetsAfter(s, s.accessors[t], s', s'.accessors[t])
  {
    hide Step, SetsAfter;
    match s.accessors[t].phase
    case Outside => EntrySets(s, t, choice);
    case Inside => EntrySets(s, t, choice);
    case AddLock => EntrySets(s, t, choice);
    case AddPush => PushSets(s, t, choice);
    case Swap => SwapSets(s, t, choice);
    case Destroy => DestroySets(s, t, choice);
    case _ => QuietSets(s, t, choice);
  }

  lemma {:induction false} OwnBatch(s: State, t: nat, choice: Choice)
    requires Placed(s) && t < |s.accessors|
    ensures t < |Step(s, t, choice).accessors| && BatchPlaced(Step(s, t, choice), Step(s, t, choice).accessors[t])
    ensures var s' := Step(s, t, choice);
            s'.nodes <= s'.added.Keys && s'.destroyed <= s'.added.Keys && s'.nodes !! s'.destroyed
  {
    hide Step, Apart;
    assert BatchPlaced(s, s.accessors[t]);
    StepSets(s, t, choice);
  }

  lemma {:induction false} OtherBatch(s: State, t: nat, choice: Choice, u: nat)
    requires Placed(s) && t < |s.accessors| && u < |s.accessors| && u != t
    ensures u < |Step(s, t, choice).accessors| && Step(s, t, choice).accessors[u] == s.accessors[u]
    ensures BatchPlaced(Step(s, t, choice), s.accessors[u])
  {
    hide Step;
    assert BatchPlaced(s, s.accessors[t]) && BatchPlaced(s, s.accessors[u]);
    assert Apart(s.accessors[t], s.accessors[u]) && Apart(s.accessors[u], s.accessors[t]);
    StepSets(s, t, choice);
    SameAccessors(s, t, choice);
  }

  lemma {:induction false} StillApart(s: State, t: nat, choice: Choice, u: nat)
    requires Placed(s) && t < |s.accessors| && u < |s.accessors| && u != t
    ensures t < |Step(s, t, choice).accessors|
    ensures Apart(Step(s, t, choice).accessors[t], s.accessors[u]) &&
            Apart(s.accessors[u], Step(s, t, choice).accessors[t])
  {
    hide Step;
    assert BatchPlaced(s, s.accessors[t]) && BatchPlaced(s, s.accessors[u]);
    assert Apart(s.accessors[t], s.accessors[u]) && Apart(s.accessors[u], s.accessors[t]);
    StepSets(s, t, choice);
  }

  lemma {:induction false} PlacedKept(s: State, t: nat, choice: Choice)
    requires Placed(s) && t < |s.accessors|
    ensures Placed(Step(s, t, choice))
  {
    hide Step, BatchPlaced, Apart;
    var s' := Step(s, t, choice);
    OwnBatch(s, t, choice);
    SameAccessors(s, t, choice);
    forall u: nat | u < |s.accessors| && u != t
      ensures BatchPlaced(s', s'.accessors[u])
      ensures Apart(s'.accessors[t], s'.accessors[u]) && Apart(s'.accessors[u], s'.accessors[t])
    {
      OtherBatch(s, t, choice, u);
      StillApart(s, t, choice, u);
    }
  }

  lemma {:induction false} SameAccessors(s: State, t: nat, choice: Choice)
    requires t < |s.accessors|
    ensures var s' := Step(s, t, choice);
            |s'.accessors| == |s.accessors| && s'.clock == s.clock + 1 &&
            forall u: nat :: u < |s.accessors| && u != t ==> s'.accessors[u] == s.accessors[u]
  {
    hide Fresh, Alive, HoldsLock;
  }

  // ---- Who was there when ----

  /** Everyone alive has come after the node was added. */
  ghost predicate Unseen(s: State, n: nat) {
    n in s.added ==> forall t: nat :: t < |s.accessors| && Alive(s.accessors[t]) ==> s.accessors[t].since > s.added[n]
  }

  ghost predicate Times(s: State) {
    && (forall n :: n in s.added ==> s.added[n] <= s.clock)
    && (forall t: nat :: t < |s.accessors| ==> s.accessors[t].since <= s.clock && s.accessors[t].dropped <= s.clock)
  }

  /** The last accessor is about to take the list: nothing in it is newer than its decrement, everyone alive is. */
  ghost predicate Taking(s: State, a: Accessor) {
    a.phase == Swap ==>
      && (forall n :: n in s.nodes && n in s.added ==> s.added[n] <= a.dropped)
      && (forall t: nat :: t < |s.accessors| && Alive(s.accessors[t]) ==> s.accessors[t].since > a.dropped)
  }

  /** What is in a batch was added before the final decrement, and nobody alive was there then. */
  ghost predicate Doomed(s: State, a: Accessor) {
    forall n :: n in a.batch && n in s.added ==> s.added[n] <= a.dropped && Unseen(s, n)
  }

  ghost predicate Inv(s: State) {
    && Counted(s) && LockOwned(s) && Placed(s) && Times(s)
    && (forall t: nat :: t < |s.accessors| ==> Taking(s, s.accessors[t]))
    && (forall t: nat :: t < |s.accessors| ==> Doomed(s, s.accessors[t]))
    && (forall n :: n in s.destroyed ==> Unseen(s, n))
  }

  /** The accessor records times up to now only. */
  lemma {:induction false} OwnTimes(s: State, t: nat, choice: Choice)
    requires t < |s.accessors| && s.accessors[t].since <= s.clock && s.accessors[t].dropped <= s.clock
    ensures var s' := Step(s, t, choice);
            t < |s'.accessors| && s'.accessors[t].since <= s.clock + 1 && s'.accessors[t].dropped <= s.clock + 1
  {
    hide Fresh, Alive, HoldsLock;
  }

  lemma {:induction false} AddedTimes(s: State, t: nat, choice: Choice)
    requires t < |s.accessors| && forall n :: n in s.added ==> s.added[n] <= s.clock
    ensures forall n :: n in Step(s, t, choice).added ==> Step(s, t, choice).added[n] <= s.clock + 1
  {
    hide Fresh;
  }

  lemma {:induction false} TimesKept(s: State, t: nat, choice: Choice)
    requires Times(s) && t < |s.accessors|
    ensures Times(Step(s, t, choice))
  {
    hide Step;
    OwnTimes(s, t, choice);
    AddedTimes(s, t, choice);
    SameAccessors(s, t, choice);
  }

  /** New accessors come later than everything that has been added. */
  lemma {:induction false} UnseenKept(s: State, t: nat, choice: Choice, n: nat)
    requires Times(s) && t < |s.accessors| && Unseen(s, n) && n in s.added && !Adding(s.accessors[t], n)
    ensures n in Step(s, t, choice).added && Step(s, t, choice).added[n] == s.added[n] && Unseen(Step(s, t, choice), n)
  {
    hide HoldsLock, Fresh;
  }

  lemma {:induction false} OthersTaking(s: State, t: nat, choice: Choice, u: nat)
    requires Inv(s) && t < |s.accessors| && u < |s.accessors| && u != t
    ensures Taking(Step(s, t, choice), s.accessors[u])
  {
    hide CountAlive, Placed, Doomed, Unseen, Fresh;
    assert Taking(s, s.accessors[u]);
    if s.accessors[u].phase == Swap {
      assert s.lock == Some(u) && !HoldsLock(s.accessors[t]);
    }
  }

  /** A decrement from one to zero finds nobody else alive. */
  lemma {:induction false} LastIsAlone(s: State, t: nat)
    requires Counted(s) && t < |s.accessors| && Alive(s.accessors[t]) && s.refs == 1
    ensures forall u: nat :: u < |s.accessors| && u != t ==> !Alive(s.accessors[u])
  {
    hide CountAlive;
    var a := s.accessors[t].(phase := Outside);
    CountUpdate(s.accessors, t, a);
    NobodyAlive(s.accessors[t := a]);
    forall u: nat | u < |s.accessors| && u != t
      ensures !Alive(s.accessors[u])
    {
      assert s.accessors[t := a][u] == s.accessors[u];
    }
  }

  lemma {:induction false} OwnTaking(s: State, t: nat, choice: Choice)
    requires Inv(s) && t < |s.accessors|
    ensures t < |Step(s, t, choice).accessors| && Taking(Step(s, t, choice), Step(s, t, choice).accessors[t])
  {
    hide CountAlive, Placed, Doomed, Unseen, HoldsLock, Fresh;
    if s.accessors[t].phase == Decrement && s.refs == 1 { LastIsAlone(s, t); }
  }

  lemma {:induction false} NotAdding(s: State, t: nat, u: nat, n: nat)
    requires Placed(s) && t < |s.accessors| && u < |s.accessors| && n in s.added
    ensures !Adding(s.accessors[u], n)
  {
    assert BatchPlaced(s, s.accessors[u]);
  }

  lemma {:induction false} OthersDoomed(s: State, t: nat, choice: Choice, u: nat)
    requires Inv(s) && t < |s.accessors| && u < |s.accessors| && u != t
    ensures Doomed(Step(s, t, choice), s.accessors[u])
  {
    hide CountAlive, Unseen, HoldsLock, Step, LockOwned, Counted, Taking, Apart, Alive;
    var s' := Step(s, t, choice);
    assert BatchPlaced(s, s.accessors[u]) && Doomed(s, s.accessors[u]);
    forall n | n in s.accessors[u].batch && n in s'.added
      ensures s'.added[n] <= s.accessors[u].dropped && Unseen(s', n)
    {
      NotAdding(s, t, t, n);
      UnseenKept(s, t, choice, n);
    }
  }

  lemma {:induction false} OwnDoomed(s: State, t: nat, choice: Choice)
    requires Inv(s) && t < |s.accessors|
    ensures t < |Step(s, t, choice).accessors| && Doomed(Step(s, t, choice), Step(s, t, choice).accessors[t])
  {
    hide CountAlive, Unseen, HoldsLock, Step, LockOwned, Counted, Apart, Alive;
    var s' := Step(s, t, choice);
    SameAccessors(s, t, choice);
    BatchAfter(s, t, choice);
    assert BatchPlaced(s, s.accessors[t]) && Doomed(s, s.accessors[t]);
    forall n | n in s'.accessors[t].batch && n in s'.added
      ensures s'.added[n] <= s'.accessors[t].dropped && Unseen(s', n)
    {
      if n !in s.accessors[t].batch { TakenUnseen(s, t, n); }
      NotAdding(s, t, t, n);
      UnseenKept(s, t, choice, n);
    }
  }

  /** The batch only gains the list, when it is taken. */
  lemma {:induction false} BatchAfter(s: State, t: nat, choice: Choice)
    requires t < |s.accessors| && (s.accessors[t].batch != {} ==>
                                   s.accessors[t].phase in {ClearDirty, ReleaseUnlock, Destroy})
    ensures var s' := Step(s, t, choice);
            && t < |s'.accessors|
            && (s'.accessors[t].batch <= s.accessors[t].batch ||
                (s.accessors[t].phase == Swap && s'.accessors[t].batch == s.nodes))
            && (s'.accessors[t].batch != {} ==> s'.accessors[t].dropped == s.accessors[t].dropped)
  {
    hide Fresh, Alive, HoldsLock;
  }

  lemma {:induction false} TakenUnseen(s: State, t: nat, n: nat)
    requires t < |s.accessors| && s.accessors[t].phase == Swap && Taking(s, s.accessors[t]) && n in s.nodes &&
             n in s.added
    ensures s.added[n] <= s.accessors[t].dropped && Unseen(s, n)
  {
  }

  lemma {:induction false} DestroyedUnseen(s: State, t: nat, choice: Choice, n: nat)
    requires Inv(s) && t < |s.accessors| && n in Step(s, t, choice).destroyed
    ensures Unseen(Step(s, t, choice), n)
  {
    hide CountAlive, Unseen, HoldsLock, Step, LockOwned, Counted, Apart, Alive, Taking;
    DestroyedAfter(s, t, choice);
    assert BatchPlaced(s, s.accessors[t]) && Doomed(s, s.accessors[t]);
    NotAdding(s, t, t, n);
    UnseenKept(s, t, choice, n);
  }

  lemma {:induction false} DestroyedAfter(s: State, t: nat, choice: Choice)
    requires t < |s.accessors|
    ensures Step(s, t, choice).destroyed <= s.destroyed + s.accessors[t].batch
  {
    hide Fresh, Alive, HoldsLock;
  }

  /** Every step of every accessor keeps the invariant. */
  lemma {:induction false} StepKeepsInv(s: State, t: nat, choice: Choice)
    requires Inv(s) && t < |s.accessors|
    ensures Inv(Step(s, t, choice))
  {
    hide Step, Counted, LockOwned, Placed, Times, Taking, Doomed, Unseen;
    var s' := Step(s, t, choice);
    CountKept(s, t, choice);
    LockKept(s, t, choice);
    PlacedKept(s, t, choice);
    TimesKept(s, t, choice);
    SameAccessors(s, t, choice);
    OwnTaking(s, t, choice);
    OwnDoomed(s, t, choice);
    forall u: nat | u < |s.accessors| && u != t
      ensures Taking(s', s'.accessors[u]) && Doomed(s', s'.accessors[u])
    {
      OthersTaking(s, t, choice, u);
      OthersDoomed(s, t, choice, u);
    }
    forall n | n in s'.destroyed
      ensures Unseen(s', n)
    {
      DestroyedUnseen(s, t, choice, n);
    }
  }

  lemma {:induction false} InitInv(s: State)
    requires Init(s)
    ensures Inv(s)
  {
    hide CountAlive;
    CountOutside(s.accessors);
  }

  lemma {:induction false} CountOutside(accessors: seq<Accessor>)
    requires forall t :: 0 <= t < |accessors| ==> accessors[t].phase == Outside
    ensures CountAlive(accessors) == 0
    decreases |accessors|
  {
    if |accessors| > 0 { CountOutside(accessors[..|accessors| - 1]); }
  }

  lemma {:induction false} RunKeepsInv(run: seq<State>, n: nat)
    requires Reachable(run) && n < |run|
    ensures Inv(run[n]) && run[n].clock == n
  {
    hide Inv, Step;
    if n == 0 {
      InitInv(run[0]);
    } else {
      RunKeepsInv(run, n - 1);
      assert Next(run[n - 1], run[n]);
      var t: nat, choice :| t < |run[n - 1].accessors| && run[n] == Step(run[n - 1], t, choice);
      StepKeepsInv(run[n - 1], t, choice);
      SameAccessors(run[n - 1], t, choice);
    }
  }

  /** A node is destroyed at most once: what a step destroys has not been destroyed before and is nowhere else. */
  lemma {:induction false} DestroyedOnce(run: seq<State>, n: nat, t: nat, choice: Choice, node: nat)
    requires Reachable(run) && n < |run| && t < |run[n].accessors|
    requires run[n].accessors[t].phase == Destroy && node in run[n].accessors[t].batch
    ensures node !in run[n].destroyed && node !in run[n].nodes
    ensures forall u: nat :: u < |run[n].accessors| && u != t ==> node !in run[n].accessors[u].batch
  {
    hide Step, Counted, LockOwned, Times, Taking, Doomed, Unseen, Reachable;
    RunKeepsInv(run, n);
    assert BatchPlaced(run[n], run[n].accessors[t]);
    forall u: nat | u < |run[n].accessors| && u != t
      ensures node !in run[n].accessors[u].batch
    {
      assert Apart(run[n].accessors[t], run[n].accessors[u]);
    }
  }

  /** A node that is destroyed, or in the batch to be destroyed, was added before everyone alive took a reference; so
      every accessor that was alive when it was added has released, and nothing added after the final decrement is in
      the batch. */
  lemma {:induction false} DestroyedAfterRelease(run: seq<State>, n: nat, node: nat, u: nat)
    requires Reachable(run) && n < |run| && u < |run[n].accessors| && node in run[n].added && Alive(run[n].accessors[u])
    requires node in run[n].destroyed || exists t: nat :: t < |run[n].accessors| && node in run[n].accessors[t].batch
    ensures run[n].added[node] < run[n].accessors[u].since
  {
    hide Step, Counted, LockOwned, Times, Taking, Placed, Reachable, Alive;
    RunKeepsInv(run, n);
    if node !in run[n].destroyed {
      var t: nat :| t < |run[n].accessors| && node in run[n].accessors[t].batch;
      assert Doomed(run[n], run[n].accessors[t]);
    }
    assert Unseen(run[n], node);
  }

  lemma {:induction false} BatchIsOlderThanDecrement(run: seq<State>, n: nat, t: nat, node: nat)
    requires Reachable(run) && n < |run| && t < |run[n].accessors| && node in run[n].accessors[t].batch
    ensures node in run[n].added && run[n].added[node] <= run[n].accessors[t].dropped
  {
    hide Step, Counted, LockOwned, Times, Taking, Reachable, Apart, Unseen;
    RunKeepsInv(run, n);
    assert BatchPlaced(run[n], run[n].accessors[t]) && Doomed(run[n], run[n].accessors[t]);
  }
}
