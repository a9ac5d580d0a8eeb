/** The lazy skip list as a state machine: adds, removes and head growth by any number of threads, one atomic access per
    step. Reading the immutable key or height of a node is not an access of its own. */
module SkipList {
  import opened Wrappers

  const NIL: nat := 0

  /** A node. `links` records at how many layers, from the bottom, it has ever been linked, and `kept` at how many it
      has not been unlinked again. */
  datatype Node = Node(key: int, isHead: bool, height: nat, skip: seq<nat>, marked: bool, fullyLinked: bool,
                       lock: Option<nat>,
                       links: nat, kept: nat)

  datatype Op = Add | Remove

  /** The point a thread has reached; each names the access it is about to make. */
  datatype Phase =
    | LoadHeight | LoadHead | ReadSkip
    | AddCheckMarked | AddWaitLinked
    | RemoveCheckLinked | RemoveCheckMarked | LockTarget | RecheckMarked | MarkTarget
    | LockPred | CheckPred | CheckLink | CheckSucc
    | CreateNode | SetOwn | SetPred | SetLinked
    | ReadTarget | UnlinkPred
    | Release
    | GrowHeight | GrowLoad | GrowLock | GrowCopy | GrowCas | GrowMark
    | Done

  /** A thread with its search state, the neighbours it has found at each layer, the node it adds or removes (or the new
      head it installs), and the locks it holds in the order in which it took them. After releasing all but `keep` of
      them it goes to `next`. */
  datatype Thread = Thread(op: Op, data: int, phase: Phase, layer: nat, top: nat, pred: nat, found: nat, foundNode: nat,
                           preds: seq<nat>, succs: seq<nat>, height: nat, target: nat, isMarked: bool, read: nat,
                               oldHead: nat,
                           held: seq<nat>, keep: nat, next: Phase)

  datatype State = State(nodes: seq<Node>, head: nat, threads: seq<Thread>)

  datatype Effect =
    | NoEffect
    | SetOwnSkip(x: nat, k: nat, y: nat)
    | Link(x: nat, k: nat, y: nat)
    | Unlink(x: nat, k: nat, y: nat, z: nat)
    | SetMarked(x: nat)
    | SetFullyLinked(x: nat)
    | TakeLock(x: nat)
    | DropLock(x: nat)
    | NewNode(node: Node)
    | SetHead(x: nat)

  /** What the environment decides: the next operation, the height of a new node, whether to grow. */
  datatype Choice = Choice(op: Op, data: int, height: nat, grow: bool)

  function NodeAt(s: State, x: nat): Node {
    if x < |s.nodes| then s.nodes[x] else Node(0, false, 0, [], false, false, None, 0, 0)
  }

  function SkipAt(s: State, x: nat, k: nat): nat {
    if k < |NodeAt(s, x).skip| then NodeAt(s, x).skip[k] else NIL
  }

  function At(list: seq<nat>, i: nat): nat {
    if i < |list| then list[i] else NIL
  }

  function Update(list: seq<nat>, i: nat, x: nat): seq<nat> {
    if i < |list| then list[i := x] else list
  }

  function FreshNode(key: int, isHead: bool, height: nat): Node {
    Node(key, isHead, height, seq(height, _ => NIL), false, false, None, 0, height)
  }

  /** Releases all locks but the first `keep` of them, then goes on at `next`. */
  function ReleaseTo(th: Thread, keep: nat, next: Phase): Thread {
    th.(phase := Release, keep := keep, next := next)
  }

  /** The locks are given up and the search starts over; a remover keeps the node it has marked. */
  function Retry(th: Thread): Thread {
    ReleaseTo(th, if th.isMarked then 1 else 0, LoadHeight)
  }

  /** One node further along the layer, or one layer down. */
  function SearchStep(s: State, th: Thread): Thread {
    var node := SkipAt(s, th.pred, th.layer);
    if node != NIL && NodeAt(s, node).key < th.data then th.(pred := node)
    else
      var hit := th.found == 0 && node != NIL && NodeAt(s, node).key == th.data;
      var found := if hit then th.layer + 1 else th.found;
      var foundNode := if hit then node else th.foundNode;
      var th1 := th.(found := found, foundNode := foundNode, preds := Update(th.preds, th.layer, th.pred),
                     succs := Update(th.succs, th.layer, if found > 0 then foundNode else node));
      if th.layer > 0 then th1.(layer := th.layer - 1) else th1
  }

  /** What the operation does with the result of the search. */
  function Searched(th: Thread, choice: Choice): Thread {
    if th.op == Add then
      if th.found > 0 then th.(phase := AddCheckMarked)
      else th.(phase := LockPred, layer := 0, height := if 1 <= choice.height <= th.top + 1 then choice.height else 1)
    else if th.isMarked then th.(phase := LockPred, layer := 0)
    else if th.found == 0 then th.(phase := Done)
    else th.(phase := RemoveCheckLinked)
  }

  /** All checks of this layer have passed. */
  function NextLock(th: Thread): Thread {
    if th.layer + 1 < th.height then th.(phase := LockPred, layer := th.layer + 1)
    else if th.op == Add then th.(phase := CreateNode)
    else th.(phase := ReadTarget, layer := if th.height > 0 then th.height - 1 else 0)
  }

  function Begin(choice: Choice): Thread {
    Thread(choice.op, choice.data, LoadHeight, 0, 0, NIL, 0, NIL, [], [], 0, NIL, false, NIL, NIL, [], 0, Done)
  }

  function SearchAction(s: State, th: Thread, choice: Choice): (Thread, Effect) {
    match th.phase
    case LoadHeight => (th.(top := if NodeAt(s, s.head).height > 0 then NodeAt(s, s.head).height - 1 else 0,
                            phase := LoadHead), NoEffect)
    case LoadHead =>
      (th.(pred := s.head, layer := th.top, found := 0, foundNode := NIL, preds := seq(th.top + 1, _ => NIL),
           succs := seq(th.top + 1, _ => NIL), phase := ReadSkip), NoEffect)
    case ReadSkip =>
      var node := SkipAt(s, th.pred, th.layer);
      var th1 := SearchStep(s, th);
      (if th.layer == 0 && !(node != NIL && NodeAt(s, node).key < th.data) then Searched(th1, choice) else th1,
       NoEffect)
    case AddCheckMarked => (if NodeAt(s, th.foundNode).marked then th.(phase := LoadHeight)
                            else th.(phase := AddWaitLinked), NoEffect)
    case AddWaitLinked => (if NodeAt(s, th.foundNode).fullyLinked then th.(phase := Done) else th, NoEffect)
    case RemoveCheckLinked =>
      (if NodeAt(s, th.foundNode).fullyLinked && NodeAt(s, th.foundNode).height == th.found
       then th.(phase := RemoveCheckMarked)
       else th.(phase := Done), NoEffect)
    case RemoveCheckMarked =>
      (if NodeAt(s, th.foundNode).marked then th.(phase := Done)
       else th.(target := th.foundNode, height := NodeAt(s, th.foundNode).height, phase := LockTarget), NoEffect)
    case _ => (th, NoEffect)
  }

  function LockAction(s: State, t: nat, th: Thread): (Thread, Effect) {
    var p := At(th.preds, th.layer);
    match th.phase
    case LockTarget =>
      if NodeAt(s, th.target).lock == None then (th.(held := [th.target], phase := RecheckMarked), TakeLock(th.target))
          else (th, NoEffect)
    case RecheckMarked =>
      (if NodeAt(s, th.target).marked then ReleaseTo(th, 0, Done) else th.(phase := MarkTarget), NoEffect)
    case MarkTarget => (th.(isMarked := true, layer := 0, phase := LockPred), SetMarked(th.target))
    case LockPred =>
      if th.layer > 0 && At(th.preds, th.layer - 1) == p then (th.(phase := CheckPred), NoEffect)
      else if NodeAt(s, p).lock == None then (th.(held := th.held + [p], phase := CheckPred), TakeLock(p))
      else (th, NoEffect)
    case CheckPred => (if NodeAt(s, p).marked then Retry(th) else th.(phase := CheckLink), NoEffect)
    case CheckLink =>
      (if SkipAt(s, p, th.layer) != At(th.succs, th.layer) then Retry(th)
       else if th.op == Add then th.(phase := CheckSucc) else NextLock(th), NoEffect)
    case CheckSucc =>
      (if At(th.succs, th.layer) != NIL && NodeAt(s, At(th.succs, th.layer)).marked then Retry(th) else NextLock(th),
       NoEffect)
    case Release =>
      if |th.held| > th.keep then (th.(held := th.held[..|th.held| - 1]), DropLock(th.held[|th.held| - 1]))
      else (th.(phase := th.next), NoEffect)
    case _ => (th, NoEffect)
  }

  function ChangeAction(s: State, t: nat, th: Thread, choice: Choice): (Thread, Effect) {
    var p := At(th.preds, th.layer);
    match th.phase
    case CreateNode => (th.(target := |s.nodes|, layer := 0, phase := SetOwn),
                        NewNode(FreshNode(th.data, false, th.height)))
    case SetOwn => (th.(phase := SetPred), SetOwnSkip(th.target, th.layer, At(th.succs, th.layer)))
    case SetPred =>
      (if th.layer + 1 < th.height then th.(layer := th.layer + 1, phase := SetOwn) else th.(phase := SetLinked),
       Link(p, th.layer, th.target))
    case SetLinked => (ReleaseTo(th, 0, if choice.grow then GrowHeight else Done), SetFullyLinked(th.target))
    case ReadTarget => (th.(read := SkipAt(s, th.target, th.layer), phase := UnlinkPred), NoEffect)
    case UnlinkPred =>
      (if th.layer > 0 then th.(layer := th.layer - 1, phase := ReadTarget) else ReleaseTo(th, 0, Done),
       Unlink(p, th.layer, th.target, th.read))
    case GrowHeight => (th.(height := NodeAt(s, s.head).height + 1, phase := GrowLoad), NoEffect)
    case GrowLoad =>
      if NodeAt(s, s.head).height >= th.height then (th.(phase := Done), NoEffect)
      else (th.(oldHead := s.head, target := |s.nodes|, phase := GrowLock), NewNode(FreshNode(0, true, th.height)))
    case GrowLock =>
      if NodeAt(s, th.oldHead).lock == None
          then (th.(held := [th.oldHead], layer := 0, phase := GrowCopy), TakeLock(th.oldHead))
      else (th, NoEffect)
    case GrowCopy =>
      (if th.layer + 1 < NodeAt(s, th.oldHead).height then th.(layer := th.layer + 1) else th.(phase := GrowCas),
       SetOwnSkip(th.target, th.layer, SkipAt(s, th.oldHead, th.layer)))
    case GrowCas =>
      if s.head == th.oldHead then (th.(phase := GrowMark), SetHead(th.target)) else (ReleaseTo(th, 0, Done), NoEffect)
    case GrowMark => (ReleaseTo(th, 0, Done), SetMarked(th.oldHead))
    case _ => (th, NoEffect)
  }

  predicate Searching(phase: Phase) {
    match phase
    case LoadHeight => true
    case LoadHead => true
    case ReadSkip => true
    case AddCheckMarked => true
    case AddWaitLinked => true
    case RemoveCheckLinked => true
    case RemoveCheckMarked => true
    case _ => false
  }

  predicate Locking(phase: Phase) {
    match phase
    case LockTarget => true
    case RecheckMarked => true
    case MarkTarget => true
    case LockPred => true
    case CheckPred => true
    case CheckLink => true
    case CheckSucc => true
    case Release => true
    case _ => false
  }

  function Action(s: State, t: nat, th: Thread, choice: Choice): (Thread, Effect) {
    if th.phase == Done then (Begin(choice), NoEffect)
    else if Searching(th.phase) then SearchAction(s, th, choice)
    else if Locking(th.phase) then LockAction(s, t, th)
    else ChangeAction(s, t, th, choice)
  }

  function SetNode(s: State, x: nat, node: Node): State {
    if x < |s.nodes| then s.(nodes := s.nodes[x := node]) else s
  }

  /** Linking stores y into x and unlinking stores z, the successor of y, into x; both also record it for y. */
  function Apply(s: State, t: nat, e: Effect): State {
    match e
    case NoEffect => s
    case SetOwnSkip(x, k, y) => SetNode(s, x, NodeAt(s, x).(skip := Update(NodeAt(s, x).skip, k, y)))
    case Link(x, k, y) =>
      var s1 := SetNode(s, x, NodeAt(s, x).(skip := Update(NodeAt(s, x).skip, k, y)));
      SetNode(s1, y, NodeAt(s1, y).(links := k + 1))
    case Unlink(x, k, y, z) =>
      var s1 := SetNode(s, x, NodeAt(s, x).(skip := Update(NodeAt(s, x).skip, k, z)));
      SetNode(s1, y, NodeAt(s1, y).(kept := k))
    case SetMarked(x) => SetNode(s, x, NodeAt(s, x).(marked := true))
    case SetFullyLinked(x) => SetNode(s, x, NodeAt(s, x).(fullyLinked := true))
    case TakeLock(x) => SetNode(s, x, NodeAt(s, x).(lock := Some(t)))
    case DropLock(x) => SetNode(s, x, NodeAt(s, x).(lock := None))
    case NewNode(node) => s.(nodes := s.nodes + [node])
    case SetHead(x) => SetNode(s, x, NodeAt(s, x).(links := NodeAt(s, x).height)).(head := x)
  }

  function Step(s: State, t: nat, choice: Choice): State
    requires t < |s.threads|
  {
    var (th, e) := Action(s, t, s.threads[t], choice);
    Apply(s, t, e).(threads := s.threads[t := th])
  }

  ghost predicate Next(s: State, s': State) {
    exists t: nat, choice :: t < |s.threads| && s' == Step(s, t, choice)
  }

  /** An empty list with one head node. */
  ghost predicate Init(s: State) {
    && |s.nodes| == 2 && s.head == 1 && s.nodes[1].height > 0
    && s.nodes[0] == FreshNode(0, false, 0)
    && s.nodes[1] == FreshNode(0, true, s.nodes[1].height).(links := s.nodes[1].height)
    && forall t :: 0 <= t < |s.threads| ==> s.threads[t] == Begin(Choice(Add, 0, 0, false)).(phase := Done)
  }

  ghost predicate Reachable(run: seq<State>) {
    |run| > 0 && Init(run[0]) && forall n :: 0 <= n < |run| - 1 ==> Next(run[n], run[n + 1])
  }
}
