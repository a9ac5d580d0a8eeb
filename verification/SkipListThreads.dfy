/** What each thread of the skip list knows, and why no step of another thread undoes it. */
module SkipListThreads {
  import opened Wrappers
  import opened SkipList
  import opened SkipListLayers

  predicate BelowKey(s: State, x: nat, data: int) {
    NodeAt(s, x).isHead || NodeAt(s, x).key < data
  }

  predicate AtOrBelow(s: State, x: nat, y: nat) {
    x == y || Below(s, x, y)
  }

  /** The neighbours found at layer l. */
  ghost predicate PathAt(s: State, th: Thread, l: nat) {
    var p, y := At(th.preds, l), At(th.succs, l);
    && EverLinked(s, p, l) && BelowKey(s, p, th.data)
    && (y != NIL ==>
           EverLinked(s, y, l) && !NodeAt(s, y).isHead && NodeAt(s, y).key >= th.data &&
               (th.found == 0 ==> NodeAt(s, y).key > th.data))
  }

  /** The neighbours from layer lo upwards; the predecessors do not rise with the layer. */
  ghost predicate PathFrom(s: State, th: Thread, lo: nat) {
    && |th.preds| == th.top + 1 && |th.succs| == th.top + 1
    && (forall l: nat :: lo <= l <= th.top ==> PathAt(s, th, l))
    && (forall l: nat, m: nat :: lo <= l < m <= th.top ==> AtOrBelow(s, At(th.preds, m), At(th.preds, l)))
  }

  ghost predicate FoundOk(s: State, th: Thread) {
    th.found > 0 ==>
           EverLinked(s, th.foundNode, th.found - 1) && !NodeAt(s, th.foundNode).isHead &&
               NodeAt(s, th.foundNode).key == th.data && th.found <= th.top + 1
  }

  /** The search is over and its result is in use. */
  predicate Pathed(phase: Phase) {
    match phase
    case AddCheckMarked => true
    case AddWaitLinked => true
    case RemoveCheckLinked => true
    case RemoveCheckMarked => true
    case LockTarget => true
    case RecheckMarked => true
    case MarkTarget => true
    case LockPred => true
    case CheckPred => true
    case CheckLink => true
    case CheckSucc => true
    case CreateNode => true
    case SetOwn => true
    case SetPred => true
    case ReadTarget => true
    case UnlinkPred => true
    case _ => false
  }

  ghost predicate SearchOk(s: State, th: Thread) {
    && (th.phase == LoadHead || th.phase == ReadSkip || Pathed(th.phase) ==> th.top < NodeAt(s, s.head).height)
    && (th.phase == ReadSkip ==>
          && th.layer <= th.top && EverLinked(s, th.pred, th.layer) && BelowKey(s, th.pred, th.data) &&
              (th.found > 0 ==> th.found > th.layer + 1)
          && PathFrom(s, th, th.layer + 1) && FoundOk(s, th)
          && forall l: nat :: th.layer < l <= th.top ==> AtOrBelow(s, At(th.preds, l), th.pred))
    && (Pathed(th.phase) ==> PathFrom(s, th, 0) && FoundOk(s, th))
    && (th.phase == AddCheckMarked || th.phase == AddWaitLinked ==> th.found > 0 && th.op == Add && !th.isMarked)
    && (th.phase == RemoveCheckLinked || th.phase == RemoveCheckMarked ==>
        th.found > 0 && th.op == Remove && !th.isMarked)
    && (th.phase == RemoveCheckMarked ==>
           NodeAt(s, th.foundNode).fullyLinked && NodeAt(s, th.foundNode).height == th.found)
  }

  /** The node a remover has chosen: complete, of this key, and once marked its own to unlink. */
  ghost predicate TargetOk(s: State, t: nat, th: Thread) {
    && (th.isMarked ==> th.op == Remove)
    && (th.phase == LockTarget || th.phase == RecheckMarked || th.phase == MarkTarget ==>
          th.op == Remove && !th.isMarked && Complete(s, th) && th.height <= th.top + 1)
    && (th.phase == MarkTarget ==> !NodeAt(s, th.target).marked)
    && (th.op == Remove && th.isMarked && !(th.phase == Done || (th.phase == Release && th.next == Done)) ==>
          && Complete(s, th) && NodeAt(s, th.target).marked
          && NodeAt(s, th.target).kept == (if th.phase == ReadTarget || th.phase == UnlinkPred then th.layer + 1
                                           else th.height)
          && (th.phase == LoadHead || th.phase == ReadSkip || Pathed(th.phase) ==> th.height <= th.top + 1))
    && (th.phase == ReadTarget || th.phase == UnlinkPred ==> th.op == Remove && th.isMarked && th.layer < th.height)
    && (th.phase == UnlinkPred ==> th.read == SkipAt(s, th.target, th.layer))
  }

  ghost predicate Complete(s: State, th: Thread) {
    && NIL < th.target < |s.nodes| && !NodeAt(s, th.target).isHead && NodeAt(s, th.target).key == th.data
    && NodeAt(s, th.target).fullyLinked && NodeAt(s, th.target).height == th.height > 0
  }

  /** Layer j has been locked and found unchanged. */
  ghost predicate Valid(s: State, th: Thread, j: nat) {
    At(th.preds, j) in th.held && !NodeAt(s, At(th.preds, j)).marked && SkipAt(s, At(th.preds, j), j) == At(th.succs, j)
  }

  predicate Checking(phase: Phase) {
    phase == LockPred || phase == CheckPred || phase == CheckLink || phase == CheckSucc
  }

  ghost predicate ValidOk(s: State, th: Thread) {
    var i := th.layer;
    && (Checking(th.phase) ==>
          && i < th.height <= th.top + 1 && (forall j: nat :: j < i ==> Valid(s, th, j))
          && (if th.op == Add then th.found == 0 && !th.isMarked else th.isMarked))
    && (th.phase == CheckPred || th.phase == CheckLink || th.phase == CheckSucc ==> At(th.preds, i) in th.held)
    && (th.phase == CheckLink || th.phase == CheckSucc ==> !NodeAt(s, At(th.preds, i)).marked)
    && (th.phase == CheckSucc ==> th.op == Add && SkipAt(s, At(th.preds, i), i) == At(th.succs, i))
    && (th.phase == CreateNode ==>
           0 < th.height <= th.top + 1 && th.op == Add && !th.isMarked && th.found == 0 &&
               forall j: nat :: j < th.height ==> Valid(s, th, j))
    && (th.phase == SetOwn || th.phase == SetPred ==>
          i < th.height <= th.top + 1 && th.op == Add && !th.isMarked && th.found == 0 &&
              forall j: nat :: i <= j < th.height ==> Valid(s, th, j))
    && (th.phase == ReadTarget || th.phase == UnlinkPred ==> th.height <= th.top + 1 && forall j: nat :: j <= i ==>
        Valid(s, th, j))
  }

  /** The thread is building a node that only it may link. */
  predicate Creating(th: Thread) {
    match th.phase
    case SetOwn => true
    case SetPred => true
    case SetLinked => true
    case GrowLock => true
    case GrowCopy => true
    case GrowCas => true
    case _ => false
  }

  ghost predicate OwnNode(s: State, th: Thread) {
    && (Creating(th) ==>
           NIL < th.target < |s.nodes| && !NodeAt(s, th.target).marked && !NodeAt(s, th.target).fullyLinked &&
               NodeAt(s, th.target).kept == NodeAt(s, th.target).height && th.op == Add && !th.isMarked)
    && (th.phase == SetOwn || th.phase == SetPred ==>
          && !NodeAt(s, th.target).isHead && NodeAt(s, th.target).key == th.data &&
              NodeAt(s, th.target).height == th.height
          && NodeAt(s, th.target).links == th.layer)
    && (th.phase == SetPred ==> SkipAt(s, th.target, th.layer) == At(th.succs, th.layer))
    && (th.phase == SetLinked ==>
          !NodeAt(s, th.target).isHead && NodeAt(s, th.target).key == th.data &&
              0 < NodeAt(s, th.target).links == NodeAt(s, th.target).height == th.height && th.found == 0)
    && (th.phase == GrowLock || th.phase == GrowCopy || th.phase == GrowCas ==>
          && NodeAt(s, th.target).isHead && NodeAt(s, th.target).links == 0 &&
              NodeAt(s, th.oldHead).height < NodeAt(s, th.target).height)
  }

  ghost predicate GrowOk(s: State, th: Thread) {
    && (th.phase in {GrowHeight, GrowLoad, GrowLock, GrowCopy, GrowCas, GrowMark} ==> th.op == Add && !th.isMarked)
    && (th.phase == GrowLock || th.phase == GrowCopy || th.phase == GrowCas || th.phase == GrowMark ==>
          th.oldHead < |s.nodes| && NodeAt(s, th.oldHead).isHead && NodeAt(s, th.oldHead).links > 0)
    && (th.phase == GrowLock ==> forall j: nat :: SkipAt(s, th.target, j) == NIL)
    && (th.phase == GrowCopy ==>
          th.layer < NodeAt(s, th.oldHead).height && forall j: nat :: SkipAt(s, th.target, j) == if j < th.layer
              then SkipAt(s, th.oldHead, j) else NIL)
    && (th.phase == GrowCas ==>
          forall j: nat :: SkipAt(s, th.target, j) == if j < NodeAt(s, th.oldHead).height then SkipAt(s, th.oldHead, j)
              else NIL)
    && (th.phase == GrowMark ==> th.oldHead != s.head)
  }

  /** Every lock is taken below all locks the thread already holds. */
  ghost predicate Descending(s: State, held: seq<nat>) {
    forall i: nat, j: nat :: i < j < |held| ==> Below(s, held[j], held[i])
  }

  /** The locks a thread holds, in its phase. */
  ghost predicate HeldOk(s: State, th: Thread) {
    && Descending(s, th.held)
    && (th.isMarked && th.phase != Done && th.phase != Release ==> |th.held| > 0 && th.held[0] == th.target)
    && (Searching(th.phase) ==> |th.held| == if th.isMarked then 1 else 0)
    && (th.phase in {LockTarget, GrowHeight, GrowLoad, GrowLock, Done} ==> th.held == [])
    && (th.phase in {RecheckMarked, MarkTarget} ==> th.held == [th.target])
    && (th.phase in {GrowCopy, GrowCas, GrowMark} ==> th.held == [th.oldHead])
    && (Checking(th.phase) ==> forall x :: x in th.held ==> (th.isMarked && x == th.target) || HeldAs(th, x))
    && (th.phase == Release ==>
          && th.next in {LoadHeight, Done, GrowHeight} && |th.held| >= th.keep
          && th.keep == (if th.next == LoadHeight && th.isMarked then 1 else 0)
          && (th.keep == 1 ==> th.held[0] == th.target) && (th.next == GrowHeight ==> th.op == Add && !th.isMarked))
  }

  /** x is the predecessor at a layer locked so far. */
  ghost predicate HeldAs(th: Thread, x: nat) {
    exists j: nat :: j < th.layer + (if th.phase == LockPred then 0 else 1) && x == At(th.preds, j)
  }

  ghost predicate Facts(s: State, t: nat, th: Thread) {
    SearchOk(s, th) && TargetOk(s, t, th) && ValidOk(s, th) && OwnNode(s, th) && GrowOk(s, th) && HeldOk(s, th)
  }

  ghost predicate LockOk(s: State, t: nat) {
    t < |s.threads| && forall x: nat :: x in s.threads[t].held <==> NodeAt(s, x).lock == Some(t)
  }

  predicate SameNode(a: Thread, b: Thread) {
    Creating(a) && Creating(b) && a.target == b.target
  }

  /** A head that has been replaced is marked, or about to be marked under its lock. */
  ghost predicate OldHead(s: State, x: nat) {
    NodeAt(s, x).isHead && NodeAt(s, x).links > 0 && x != s.head && !NodeAt(s, x).marked ==>
      exists g: nat :: g < |s.threads| && NodeAt(s, x).lock == Some(g) && s.threads[g].phase == GrowMark &&
          s.threads[g].oldHead == x
  }

  ghost predicate OwnerOk(s: State, x: nat) {
    NodeAt(s, x).lock.Some? ==> NodeAt(s, x).lock.value < |s.threads|
  }

  ghost predicate Inv(s: State) {
    && Layers(s)
    && (forall t: nat :: t < |s.threads| ==> Facts(s, t, s.threads[t]))
    && (forall t: nat :: t < |s.threads| ==> LockOk(s, t))
    && (forall x: nat :: OwnerOk(s, x))
    && (forall t: nat, u: nat :: t < |s.threads| && u < |s.threads| && SameNode(s.threads[t], s.threads[u]) ==> t == u)
    && (forall x: nat :: OldHead(s, x))
  }

  /** All that a thread relies on. */
  ghost predicate Known(s: State, t: nat) {
    Layers(s) && t < |s.threads| && Facts(s, t, s.threads[t]) && LockOk(s, t) && forall x: nat :: OldHead(s, x)
  }

  lemma {:induction false} InvKnown(s: State, t: nat)
    requires Inv(s) && t < |s.threads|
    ensures Known(s, t)
  {
    hide Layers, Facts, LockOk, OldHead, OwnerOk;
  }

  // ---- Every step is allowed ----

  /** An unmarked node that one has locked is in every layer it was ever linked in. */
  lemma {:induction false} UnmarkedInLayer(s: State, t: nat, x: nat, k: nat)
    requires Layers(s) && EverLinked(s, x, k) && !NodeAt(s, x).marked && NodeAt(s, x).lock == Some(t)
    requires t < |s.threads| && s.threads[t].phase != GrowMark && OldHead(s, x)
    ensures InLayer(s, x, k)
  {
    hide SkipAt, LinkUp, LinkNext, KeyOnce;
    assert NodeShape(s, x);
  }

  /** The validated predecessor is in its layer. */
  lemma {:induction false} PredInLayer(s: State, t: nat, j: nat)
    requires Known(s, t) && j <= s.threads[t].top && Pathed(s.threads[t].phase) && Valid(s, s.threads[t], j)
    ensures InLayer(s, At(s.threads[t].preds, j), j) && At(s.threads[t].preds, j) < |s.nodes|
    ensures NodeAt(s, At(s.threads[t].preds, j)).lock == Some(t)
  {
    hide NodeAt, SkipAt, Layers, TargetOk, ValidOk, OwnNode, GrowOk, HeldOk, At;
    var p := At(s.threads[t].preds, j);
    assert PathAt(s, s.threads[t], j);
    UnmarkedInLayer(s, t, p, j);
    InRange(s, p, j);
  }

  lemma {:induction false} LinkAllowed(s: State, t: nat)
    requires Known(s, t) && s.threads[t].phase == SetPred
    ensures var th := s.threads[t]; LinkOk(s, At(th.preds, th.layer), th.layer, th.target)
    ensures var th := s.threads[t]; NodeAt(s, At(th.preds, th.layer)).lock == Some(t)
  {
    hide SkipAt, Layers, TargetOk, GrowOk, HeldOk, At, LockOk, OldHead, EverLinked;
    var th := s.threads[t];
    var k := th.layer;
    assert Valid(s, th, k) && PathAt(s, th, k);
    PredInLayer(s, t, k);
  }

  lemma {:induction false} UnlinkAllowed(s: State, t: nat)
    requires Known(s, t) && s.threads[t].phase == UnlinkPred
    ensures var th := s.threads[t]; UnlinkOk(s, At(th.preds, th.layer), th.layer, th.target, th.read)
    ensures var th := s.threads[t];
            NodeAt(s, At(th.preds, th.layer)).lock == Some(t) && NodeAt(s, th.target).lock == Some(t)
  {
    hide SkipAt, Layers, GrowOk, OwnNode, At, OldHead, EverLinked, InLayer;
    var th := s.threads[t];
    var k := th.layer;
    assert Valid(s, th, k) && PathAt(s, th, k);
    PredInLayer(s, t, k);
    TargetInLayer(s, t);
    TargetLocked(s, t);
    SuccIsTarget(s, At(th.preds, k), k, th.target);
  }

  lemma {:induction false} TargetInLayer(s: State, t: nat)
    requires Known(s, t) && s.threads[t].phase == UnlinkPred
    ensures InLayer(s, s.threads[t].target, s.threads[t].layer)
  {
    hide SkipAt, LinkUp, LinkNext, KeyOnce, GrowOk, OwnNode, HeldOk, SearchOk, ValidOk, OldHead;
    assert NodeShape(s, s.threads[t].target);
  }

  lemma {:induction false} TargetLocked(s: State, t: nat)
    requires Known(s, t) && s.threads[t].isMarked && s.threads[t].phase != Done && s.threads[t].phase != Release
    ensures s.threads[t].target in s.threads[t].held && NodeAt(s, s.threads[t].target).lock == Some(t)
  {
    hide NodeAt, SkipAt, Layers, GrowOk, OwnNode, SearchOk, ValidOk, TargetOk, OldHead;
  }

  /** Nothing lies between the validated predecessor and the node to remove. */
  lemma {:induction false} SuccIsTarget(s: State, p: nat, k: nat, d: nat)
    requires Layers(s) && InLayer(s, p, k) && InLayer(s, d, k) && Below(s, p, d) && !NodeAt(s, d).isHead
    requires SkipAt(s, p, k) != NIL ==>
                NodeAt(s, SkipAt(s, p, k)).key >= NodeAt(s, d).key && !NodeAt(s, SkipAt(s, p, k)).isHead
    ensures SkipAt(s, p, k) == d
  {
    hide SkipAt, InLayer, Layers;
    NextReached(s, p, d, k);
  }

  lemma {:induction false} HeadAllowed(s: State, t: nat)
    requires Known(s, t) && s.threads[t].phase == GrowCas && s.head == s.threads[t].oldHead
    ensures HeadOk(s, s.threads[t].target) && NodeAt(s, s.head).lock == Some(t)
  {
    hide SkipAt, LinkUp, LinkNext, KeyOnce, NodeShape, SearchOk, ValidOk, TargetOk, OldHead;
  }

  lemma {:induction false} LockAllowed(s: State, t: nat, choice: Choice)
    requires Known(s, t) && t < |s.threads| && Locking(s.threads[t].phase)
    ensures Allowed(s, t, Action(s, t, s.threads[t], choice).1)
  {
    hide NodeAt, SkipAt, Layers, Facts, LockOk, OldHead, Known, Allowed, Retry, NextLock;
    var th := s.threads[t];
    if th.phase == MarkTarget {
      MarkAllowed(s, t);
    } else if th.phase == Release {
      if |th.held| > th.keep { DropAllowed(s, t, th.held[|th.held| - 1]); }
    } else if th.phase == LockPred {
      if NodeAt(s, At(th.preds, th.layer)).lock == None { TakeAllowed(s, t); }
    } else if th.phase == LockTarget {
      if NodeAt(s, th.target).lock == None { TakeTargetAllowed(s, t); }
    }
    NothingAllowed(s, t);
  }

  lemma {:induction false} NothingAllowed(s: State, t: nat)
    ensures Allowed(s, t, NoEffect)
  {
  }

  lemma {:induction false} DropAllowed(s: State, t: nat, x: nat)
    requires Known(s, t) && x in s.threads[t].held
    ensures Allowed(s, t, DropLock(x))
  {
    hide SkipAt, Layers, Facts, OldHead;
  }

  lemma {:induction false} TakeAllowed(s: State, t: nat)
    requires Known(s, t) && s.threads[t].phase == LockPred &&
             NodeAt(s, At(s.threads[t].preds, s.threads[t].layer)).lock == None
    ensures Allowed(s, t, TakeLock(At(s.threads[t].preds, s.threads[t].layer)))
  {
    hide NodeAt, SkipAt, Layers, Facts, OldHead, Known;
    PredInRange(s, t);
  }

  lemma {:induction false} TakeTargetAllowed(s: State, t: nat)
    requires Known(s, t) && s.threads[t].phase == LockTarget && NodeAt(s, s.threads[t].target).lock == None
    ensures Allowed(s, t, TakeLock(s.threads[t].target))
  {
    hide SkipAt, Layers, OldHead, SearchOk, ValidOk, OwnNode, GrowOk, HeldOk, LockOk;
  }

  lemma {:induction false} PredInRange(s: State, t: nat)
    requires Known(s, t) && Checking(s.threads[t].phase)
    ensures NIL < At(s.threads[t].preds, s.threads[t].layer) < |s.nodes|
  {
    hide NodeAt, SkipAt, LinkUp, LinkNext, KeyOnce, OldHead, OwnNode, GrowOk, HeldOk, TargetOk, At;
    assert PathAt(s, s.threads[t], s.threads[t].layer);
    assert NodeShape(s, NIL);
    LinkedInRange(s, At(s.threads[t].preds, s.threads[t].layer));
  }

  lemma {:induction false} MarkAllowed(s: State, t: nat)
    requires Known(s, t) && s.threads[t].phase == MarkTarget
    ensures Allowed(s, t, SetMarked(s.threads[t].target))
  {
    hide SkipAt, LinkUp, LinkNext, KeyOnce, NodeShape, OldHead, OwnNode, GrowOk, SearchOk, ValidOk;
  }

  lemma {:induction false} ChangeAllowed(s: State, t: nat, choice: Choice)
    requires Known(s, t) && t < |s.threads| && !Searching(s.threads[t].phase) && !Locking(s.threads[t].phase)
    ensures Allowed(s, t, Action(s, t, s.threads[t], choice).1)
  {
    hide NodeAt, SkipAt, Layers, Facts, LockOk, OldHead, Known, Allowed, FreshNode;
    var th := s.threads[t];
    if th.phase == SetPred {
      LinkAllowed(s, t);
      LinkByDefinition(s, t, At(th.preds, th.layer), th.layer, th.target);
    } else if th.phase == UnlinkPred {
      UnlinkAllowed(s, t);
      UnlinkByDefinition(s, t, At(th.preds, th.layer), th.layer, th.target, th.read);
    } else if th.phase == GrowCas && s.head == th.oldHead {
      HeadAllowed(s, t);
      HeadByDefinition(s, t, th.target);
    } else if th.phase == SetOwn || th.phase == GrowCopy {
      OwnSkipAllowed(s, t, if th.phase == SetOwn then At(th.succs, th.layer) else SkipAt(s, th.oldHead, th.layer));
    } else if th.phase == SetLinked {
      LinkedAllowed(s, t);
    } else if th.phase == GrowMark {
      GrowMarkAllowed(s, t);
    } else if th.phase == GrowLock {
      if NodeAt(s, th.oldHead).lock == None { GrowLockAllowed(s, t); }
    } else if th.phase == CreateNode {
      FreshAllowed(s, t, th.data, false, th.height);
    } else if th.phase == GrowLoad {
      FreshAllowed(s, t, 0, true, th.height);
    }
    NothingAllowed(s, t);
  }

  lemma {:induction false} LinkByDefinition(s: State, t: nat, p: nat, k: nat, n: nat)
    requires LinkOk(s, p, k, n) && NodeAt(s, p).lock == Some(t)
    ensures Allowed(s, t, Link(p, k, n))
  {
    hide NodeAt, LinkOk;
  }

  lemma {:induction false} UnlinkByDefinition(s: State, t: nat, p: nat, k: nat, d: nat, z: nat)
    requires UnlinkOk(s, p, k, d, z) && NodeAt(s, p).lock == Some(t) && NodeAt(s, d).lock == Some(t)
    ensures Allowed(s, t, Unlink(p, k, d, z))
  {
    hide NodeAt, UnlinkOk;
  }

  lemma {:induction false} HeadByDefinition(s: State, t: nat, h: nat)
    requires HeadOk(s, h) && NodeAt(s, s.head).lock == Some(t)
    ensures Allowed(s, t, SetHead(h))
  {
    hide NodeAt, HeadOk;
  }

  lemma {:induction false} FreshAllowed(s: State, t: nat, key: int, isHead: bool, height: nat)
    ensures Allowed(s, t, NewNode(FreshNode(key, isHead, height)))
  {
  }

  lemma {:induction false} OwnSkipAllowed(s: State, t: nat, y: nat)
    requires Known(s, t) && (s.threads[t].phase == SetOwn || s.threads[t].phase == GrowCopy)
    ensures Allowed(s, t, SetOwnSkip(s.threads[t].target, s.threads[t].layer, y))
  {
    hide SkipAt, Layers, SearchOk, TargetOk, ValidOk, GrowOk, HeldOk, LockOk, OldHead;
  }

  lemma {:induction false} LinkedAllowed(s: State, t: nat)
    requires Known(s, t) && s.threads[t].phase == SetLinked
    ensures Allowed(s, t, SetFullyLinked(s.threads[t].target))
  {
    hide SkipAt, Layers, SearchOk, TargetOk, ValidOk, GrowOk, HeldOk, LockOk, OldHead;
  }

  lemma {:induction false} GrowMarkAllowed(s: State, t: nat)
    requires Known(s, t) && s.threads[t].phase == GrowMark
    ensures Allowed(s, t, SetMarked(s.threads[t].oldHead))
  {
    hide SkipAt, Layers, SearchOk, TargetOk, ValidOk, OldHead;
    assert s.threads[t].oldHead in s.threads[t].held;
  }

  lemma {:induction false} GrowLockAllowed(s: State, t: nat)
    requires Known(s, t) && s.threads[t].phase == GrowLock && NodeAt(s, s.threads[t].oldHead).lock == None
    ensures Allowed(s, t, TakeLock(s.threads[t].oldHead))
  {
    hide SkipAt, LinkUp, LinkNext, KeyOnce, SearchOk, TargetOk, ValidOk, HeldOk, LockOk, OldHead;
    assert NodeShape(s, NIL);
  }

  lemma {:induction false} StepIsAllowed(s: State, t: nat, choice: Choice)
    requires Known(s, t) && t < |s.threads|
    ensures Allowed(s, t, Action(s, t, s.threads[t], choice).1)
  {
    hide Known, Allowed, SearchAction, LockAction, ChangeAction;
    if Searching(s.threads[t].phase) {
      SearchReadsOnly(s, t, choice);
    } else if Locking(s.threads[t].phase) {
      LockAllowed(s, t, choice);
    } else {
      ChangeAllowed(s, t, choice);
    }
  }

  lemma {:induction false} SearchReadsOnly(s: State, t: nat, choice: Choice)
    requires t < |s.threads| && Searching(s.threads[t].phase)
    ensures Action(s, t, s.threads[t], choice).1 == NoEffect && Allowed(s, t, NoEffect)
  {
    hide NodeAt, SkipAt;
  }

  // ---- What the steps of others leave alone ----

  ghost predicate Moved(s: State, s': State, t: nat, choice: Choice) {
    && t < |s.threads| && s'.threads == s.threads[t := Action(s, t, s.threads[t], choice).0]
    && Changed(s, s', t, Action(s, t, s.threads[t], choice).1)
  }

  lemma {:induction false} StepMoves(s: State, t: nat, choice: Choice)
    requires Known(s, t) && t < |s.threads|
    ensures Moved(s, Step(s, t, choice), t, choice)
  {
    hide NodeAt, SkipAt, Facts, LockOk, OldHead, Action, Layers, Allowed, View, Apply;
    var e := Action(s, t, s.threads[t], choice).1;
    StepIsAllowed(s, t, choice);
    KnownLayers(s, t);
    EffectView(s, t, e);
    SameMemory(s, Apply(s, t, e), Step(s, t, choice), t, e);
    SameThreads(s, t, choice);
  }

  lemma {:induction false} KnownLayers(s: State, t: nat)
    requires Known(s, t)
    ensures Layers(s)
  {
    hide Layers, Facts, LockOk, OldHead;
  }

  lemma {:induction false} SameThreads(s: State, t: nat, choice: Choice)
    requires t < |s.threads|
    ensures Step(s, t, choice).threads == s.threads[t := Action(s, t, s.threads[t], choice).0]
    ensures Step(s, t, choice).nodes == Apply(s, t, Action(s, t, s.threads[t], choice).1).nodes
    ensures Step(s, t, choice).head == Apply(s, t, Action(s, t, s.threads[t], choice).1).head
  {
    hide Action;
  }

  lemma {:induction false} SameMemory(s: State, s1: State, s2: State, t: nat, e: Effect)
    requires View(s, s1, t, e) && s1.nodes == s2.nodes && s1.head == s2.head
    ensures View(s, s2, t, e)
  {
    assert forall x: nat :: NodeAt(s1, x) == NodeAt(s2, x);
    assert forall x: nat, k: nat :: SkipAt(s1, x, k) == SkipAt(s2, x, k);
  }

  /** Keys, kinds and heights of existing nodes never change; marks and completeness only come. */
  lemma {:induction false} FieldsKept(s: State, s': State, t: nat, choice: Choice, x: nat)
    requires Moved(s, s', t, choice) && x < |s.nodes|
    ensures x < |s'.nodes|
    ensures NodeAt(s', x).key == NodeAt(s, x).key && NodeAt(s', x).isHead == NodeAt(s, x).isHead &&
            NodeAt(s', x).height == NodeAt(s, x).height
    ensures NodeAt(s, x).marked ==> NodeAt(s', x).marked
    ensures NodeAt(s, x).fullyLinked ==> NodeAt(s', x).fullyLinked
    ensures NodeAt(s, x).links <= NodeAt(s', x).links
  {
    hide NodeAt, SkipAt, Action, LinkUp, LinkNext, KeyOnce, Below, InLayer, NodeShape;
  }

  lemma {:induction false} HeadGrows(s: State, s': State, t: nat, choice: Choice)
    requires Moved(s, s', t, choice)
    ensures NodeAt(s, s.head).height <= NodeAt(s', s'.head).height
  {
    hide NodeAt, SkipAt, Action, LinkUp, LinkNext, KeyOnce, Below, InLayer, NodeShape;
  }

  lemma {:induction false} EverStays(s: State, s': State, t: nat, choice: Choice, x: nat, k: nat)
    requires Moved(s, s', t, choice) && EverLinked(s, x, k)
    ensures EverLinked(s', x, k) && x < |s.nodes|
  {
    hide NodeAt, SkipAt, Action, View, Allowed, Layers;
    EverKept(s, s', t, Action(s, t, s.threads[t], choice).1, x, k);
  }

  lemma {:induction false} PathAtKept(s: State, s': State, t: nat, choice: Choice, th: Thread, l: nat)
    requires Moved(s, s', t, choice) && PathAt(s, th, l)
    ensures PathAt(s', th, l) && At(th.preds, l) < |s.nodes|
  {
    hide NodeAt, Moved, At, EverLinked;
    var p, y := At(th.preds, l), At(th.succs, l);
    EverStays(s, s', t, choice, p, l);
    FieldsKept(s, s', t, choice, p);
    if y != NIL {
      EverStays(s, s', t, choice, y, l);
      FieldsKept(s, s', t, choice, y);
    }
  }

  lemma {:induction false} OrderKept(s: State, s': State, t: nat, choice: Choice, x: nat, y: nat)
    requires Moved(s, s', t, choice) && x < |s.nodes| && y < |s.nodes|
    ensures Below(s', x, y) == Below(s, x, y) && AtOrBelow(s', x, y) == AtOrBelow(s, x, y)
  {
    hide NodeAt, SkipAt, Action, View, Allowed, Layers, Below;
    BelowKept(s, s', t, Action(s, t, s.threads[t], choice).1, x, y);
  }

  lemma {:induction false} PathKept(s: State, s': State, t: nat, choice: Choice, th: Thread, lo: nat)
    requires Moved(s, s', t, choice) && PathFrom(s, th, lo)
    ensures PathFrom(s', th, lo)
  {
    hide NodeAt, Moved, At, PathAt, AtOrBelow;
    forall l: nat | lo <= l <= th.top
      ensures PathAt(s', th, l) && At(th.preds, l) < |s.nodes|
    {
      PathAtKept(s, s', t, choice, th, l);
    }
    forall l: nat, m: nat | lo <= l < m <= th.top
      ensures AtOrBelow(s', At(th.preds, m), At(th.preds, l))
    {
      assert PathAt(s', th, l) && PathAt(s', th, m);
      OrderKept(s, s', t, choice, At(th.preds, m), At(th.preds, l));
    }
  }

  lemma {:induction false} FoundKept(s: State, s': State, t: nat, choice: Choice, th: Thread)
    requires Moved(s, s', t, choice) && FoundOk(s, th)
    ensures FoundOk(s', th) && (th.found > 0 ==> th.foundNode < |s.nodes|)
  {
    hide NodeAt, Moved, EverLinked;
    if th.found > 0 {
      EverStays(s, s', t, choice, th.foundNode, th.found - 1);
      FieldsKept(s, s', t, choice, th.foundNode);
    }
  }

  /** What a thread has learnt by searching stays true whatever any thread does. */
  lemma {:induction false} SearchKept(s: State, s': State, t: nat, choice: Choice, th: Thread)
    requires Moved(s, s', t, choice) && SearchOk(s, th)
    ensures SearchOk(s', th)
  {
    hide NodeAt, Moved, PathFrom, FoundOk, EverLinked, At, BelowKey, AtOrBelow;
    HeadGrows(s, s', t, choice);
    if th.phase == ReadSkip {
      PathKept(s, s', t, choice, th, th.layer + 1);
      FoundKept(s, s', t, choice, th);
      EverStays(s, s', t, choice, th.pred, th.layer);
      BelowKeyKept(s, s', t, choice, th.pred, th.data);
      CursorOrderKept(s, s', t, choice, th);
    }
    if Pathed(th.phase) {
      PathKept(s, s', t, choice, th, 0);
      FoundKept(s, s', t, choice, th);
      if th.phase == RemoveCheckMarked { FieldsKept(s, s', t, choice, th.foundNode); }
    }
  }

  lemma {:induction false} BelowKeyKept(s: State, s': State, t: nat, choice: Choice, x: nat, data: int)
    requires Moved(s, s', t, choice) && x < |s.nodes| && BelowKey(s, x, data)
    ensures BelowKey(s', x, data)
  {
    hide NodeAt, Moved;
    FieldsKept(s, s', t, choice, x);
  }

  lemma {:induction false} CursorOrderKept(s: State, s': State, t: nat, choice: Choice, th: Thread)
    requires Moved(s, s', t, choice) && PathFrom(s, th, th.layer + 1) && EverLinked(s, th.pred, th.layer)
    requires forall l: nat :: th.layer < l <= th.top ==> AtOrBelow(s, At(th.preds, l), th.pred)
    ensures forall l: nat :: th.layer < l <= th.top ==> AtOrBelow(s', At(th.preds, l), th.pred)
  {
    hide NodeAt, Moved, EverLinked, At, AtOrBelow, PathAt;
    EverStays(s, s', t, choice, th.pred, th.layer);
    forall l: nat | th.layer < l <= th.top
      ensures AtOrBelow(s', At(th.preds, l), th.pred)
    {
      PathAtKept(s, s', t, choice, th, l);
      OrderKept(s, s', t, choice, At(th.preds, l), th.pred);
    }
  }

  /** Nobody else changes a node that one has locked: not its marks, nor its kept layers, nor its links. */
  lemma {:induction false} LockedKept(s: State, s': State, t: nat, choice: Choice, u: nat, x: nat, k: nat)
    requires Moved(s, s', t, choice) && u != t && NodeAt(s, x).lock == Some(u) && x < |s.nodes|
    ensures NodeAt(s', x).lock == Some(u) && NodeAt(s', x).marked == NodeAt(s, x).marked &&
            NodeAt(s', x).kept == NodeAt(s, x).kept
    ensures EverLinked(s, x, k) ==> SkipAt(s', x, k) == SkipAt(s, x, k)
  {
    hide NodeAt, SkipAt, Action, LinkUp, LinkNext, KeyOnce, Below, InLayer, NodeShape;
  }

  lemma {:induction false} ValidKept(s: State, s': State, t: nat, choice: Choice, u: nat, j: nat)
    requires Moved(s, s', t, choice) && u != t && u < |s.threads| && LockOk(s, u) && Valid(s, s.threads[u], j) &&
             PathAt(s, s.threads[u], j)
    ensures Valid(s', s.threads[u], j)
  {
    hide NodeAt, SkipAt, Moved, At, EverLinked;
    var p := At(s.threads[u].preds, j);
    EverStays(s, s', t, choice, p, j);
    LockedKept(s, s', t, choice, u, p, j);
  }

  lemma {:induction false} HeldUnmarked(s: State, s': State, t: nat, choice: Choice, u: nat, x: nat, k: nat)
    requires Moved(s, s', t, choice) && u != t && u < |s.threads| && LockOk(s, u) && x in s.threads[u].held &&
             EverLinked(s, x, k)
    ensures NodeAt(s', x).marked == NodeAt(s, x).marked && SkipAt(s', x, k) == SkipAt(s, x, k)
  {
    hide NodeAt, SkipAt, Moved, EverLinked;
    EverStays(s, s', t, choice, x, k);
    LockedKept(s, s', t, choice, u, x, k);
  }

  lemma {:induction false} OthersValidAt(s: State, s': State, t: nat, choice: Choice, u: nat)
    requires Moved(s, s', t, choice) && u != t && Known(s, u) && u < |s.threads| && Pathed(s.threads[u].phase)
    ensures forall j: nat :: j <= s.threads[u].top && Valid(s, s.threads[u], j) ==> Valid(s', s.threads[u], j)
  {
    hide NodeAt, SkipAt, Moved, At, EverLinked, Layers, OwnNode, GrowOk, HeldOk, TargetOk, LockOk, OldHead, Valid,
         PathAt, FoundOk, AtOrBelow, ValidOk;
    var th := s.threads[u];
    forall j: nat | j <= th.top && Valid(s, th, j)
      ensures Valid(s', th, j)
    {
      assert PathAt(s, th, j);
      ValidKept(s, s', t, choice, u, j);
    }
  }

  lemma {:induction false} OthersPredKept(s: State, s': State, t: nat, choice: Choice, u: nat)
    requires Moved(s, s', t, choice) && u != t && Known(s, u) && u < |s.threads|
    requires s.threads[u].phase == CheckLink || s.threads[u].phase == CheckSucc
    ensures var th := s.threads[u]; var p := At(th.preds, th.layer);
            NodeAt(s', p).marked == NodeAt(s, p).marked && SkipAt(s', p, th.layer) == SkipAt(s, p, th.layer)
  {
    hide NodeAt, SkipAt, Moved, At, EverLinked, Layers, OwnNode, GrowOk, HeldOk, TargetOk, LockOk, OldHead, Valid,
         PathAt, FoundOk, AtOrBelow;
    var th := s.threads[u];
    assert PathAt(s, th, th.layer);
    PathEver(s, th, th.layer);
    HeldUnmarked(s, s', t, choice, u, At(th.preds, th.layer), th.layer);
  }

  lemma {:induction false} OthersValid(s: State, s': State, t: nat, choice: Choice, u: nat)
    requires Moved(s, s', t, choice) && u != t && Known(s, u) && u < |s.threads|
    ensures ValidOk(s', s.threads[u])
  {
    hide NodeAt, SkipAt, Moved, At, EverLinked, Layers, OwnNode, GrowOk, HeldOk, TargetOk, LockOk, OldHead, Valid,
         SearchOk;
    var th := s.threads[u];
    if Pathed(th.phase) { OthersValidAt(s, s', t, choice, u); }
    if th.phase == CheckLink || th.phase == CheckSucc { OthersPredKept(s, s', t, choice, u); }
    if th.phase == ReadTarget || th.phase == UnlinkPred { RemoveHeight(s, u); }
  }

  lemma {:induction false} RemoveHeight(s: State, u: nat)
    requires Known(s, u) && (s.threads[u].phase == ReadTarget || s.threads[u].phase == UnlinkPred)
    ensures s.threads[u].layer <= s.threads[u].top
  {
  }

  lemma {:induction false} PathEver(s: State, th: Thread, l: nat)
    requires PathAt(s, th, l)
    ensures EverLinked(s, At(th.preds, l), l)
  {
    hide NodeAt, At, EverLinked;
  }

  lemma {:induction false} CompleteKept(s: State, s': State, t: nat, choice: Choice, th: Thread)
    requires Moved(s, s', t, choice) && Complete(s, th)
    ensures Complete(s', th)
  {
    hide NodeAt, Moved;
    FieldsKept(s, s', t, choice, th.target);
  }

  lemma {:induction false} OthersTarget(s: State, s': State, t: nat, choice: Choice, u: nat)
    requires Moved(s, s', t, choice) && u != t && Known(s, u) && u < |s.threads|
    ensures TargetOk(s', u, s.threads[u])
  {
    hide NodeAt, SkipAt, Moved, At, OwnNode, GrowOk, ValidOk, OldHead, SearchOk, Complete, LinkUp, LinkNext, KeyOnce,
         NodeShape;
    var th := s.threads[u];
    if Complete(s, th) { CompleteKept(s, s', t, choice, th); }
    if th.phase == MarkTarget { HeldFields(s, s', t, choice, u); }
    if th.op == Remove && th.isMarked && !(th.phase == Done || (th.phase == Release && th.next == Done)) {
      HeldFields(s, s', t, choice, u);
    }
  }

  /** The target of a remover, once locked, changes only by its own steps. */
  lemma {:induction false} HeldFields(s: State, s': State, t: nat, choice: Choice, u: nat)
    requires Moved(s, s', t, choice) && u != t && Known(s, u) && u < |s.threads| && Complete(s, s.threads[u])
    requires s.threads[u].phase == MarkTarget ||
             (s.threads[u].isMarked && s.threads[u].op == Remove && s.threads[u].phase != Done &&
              (s.threads[u].phase == Release ==> s.threads[u].next != Done))
    ensures NodeAt(s', s.threads[u].target).marked == NodeAt(s, s.threads[u].target).marked
    ensures NodeAt(s', s.threads[u].target).kept == NodeAt(s, s.threads[u].target).kept
    ensures s.threads[u].layer < s.threads[u].height ==>
            SkipAt(s', s.threads[u].target, s.threads[u].layer) == SkipAt(s, s.threads[u].target, s.threads[u].layer)
  {
    hide NodeAt, SkipAt, Moved, At, OwnNode, GrowOk, ValidOk, OldHead, SearchOk, LinkUp, LinkNext, KeyOnce, TargetOk;
    var th := s.threads[u];
    assert th.target in th.held;
    assert NodeShape(s, th.target);
    LockedKept(s, s', t, choice, u, th.target, th.layer);
  }

  /** A node under construction changes only by the steps of its creator. */
  lemma {:induction false} OthersOwn(s: State, s': State, t: nat, choice: Choice, u: nat)
    requires Moved(s, s', t, choice) && u != t && Known(s, u) && u < |s.threads| && Known(s, t) &&
             !SameNode(s.threads[t], s.threads[u])
    ensures OwnNode(s', s.threads[u])
  {
    hide NodeAt, SkipAt, Action, At, GrowOk, ValidOk, OldHead, SearchOk, TargetOk, HeldOk, LockOk, LinkUp, LinkNext,
         KeyOnce, Below, NodeShape, Moved;
    if Creating(s.threads[u]) { PrivateKept(s, s', t, choice, u, s.threads[u].layer); }
    if s.threads[u].phase in {GrowLock, GrowCopy, GrowCas} { OldHeadKept(s, s', t, choice, u); }
  }

  lemma {:induction false} OldHeadKept(s: State, s': State, t: nat, choice: Choice, u: nat)
    requires Moved(s, s', t, choice) && u < |s.threads| && GrowOk(s, s.threads[u]) &&
             s.threads[u].phase in {GrowLock, GrowCopy, GrowCas, GrowMark}
    ensures var h := s.threads[u].oldHead;
            h < |s.nodes| && h < |s'.nodes| && NodeAt(s', h).isHead && NodeAt(s', h).links > 0 &&
                NodeAt(s', h).height == NodeAt(s, h).height
  {
    hide NodeAt, SkipAt, Moved;
    FieldsKept(s, s', t, choice, s.threads[u].oldHead);
  }

  /** No step of another thread touches it, except that a link it already has may be redirected. */
  ghost predicate Untouched(s: State, e: Effect, x: nat) {
    && (e.Link? ==> e.y != x && (e.x == x ==> e.k < NodeAt(s, x).links))
    && (e.Unlink? ==> e.y != x && (e.x == x ==> e.k < NodeAt(s, x).links))
    && (e.SetOwnSkip? || e.SetMarked? || e.SetFullyLinked? || e.SetHead? ==> e.x != x)
  }

  lemma {:induction false} PrivateUntouched(s: State, t: nat, choice: Choice, u: nat)
    requires t < |s.threads| && Allowed(s, t, Action(s, t, s.threads[t], choice).1)
    requires u != t && u < |s.threads| && Creating(s.threads[u]) && OwnNode(s, s.threads[u])
    requires TargetOk(s, t, s.threads[t]) && GrowOk(s, s.threads[t]) && !SameNode(s.threads[t], s.threads[u])
    ensures Untouched(s, Action(s, t, s.threads[t], choice).1, s.threads[u].target)
  {
    hide NodeAt, SkipAt, Action, At, Below;
    EffectTargets(s, t, choice);
  }

  lemma {:induction false} UntouchedKept(s: State, s': State, t: nat, e: Effect, x: nat, k: nat)
    requires View(s, s', t, e) && Untouched(s, e, x) && x < |s.nodes| && NodeAt(s, x).links <= k
    ensures SkipAt(s', x, k) == SkipAt(s, x, k)
  {
    hide NodeAt, SkipAt;
  }

  lemma {:induction false} PrivateKept(s: State, s': State, t: nat, choice: Choice, u: nat, k: nat)
    requires Moved(s, s', t, choice) && u != t && u < |s.threads| && Creating(s.threads[u]) && OwnNode(s, s.threads[u])
    requires TargetOk(s, t, s.threads[t]) && GrowOk(s, s.threads[t]) && !SameNode(s.threads[t], s.threads[u])
    ensures var x := s.threads[u].target;
            && NodeAt(s', x).marked == NodeAt(s, x).marked && NodeAt(s', x).fullyLinked == NodeAt(s, x).fullyLinked
            && NodeAt(s', x).kept == NodeAt(s, x).kept && NodeAt(s', x).links == NodeAt(s, x).links
            && NodeAt(s', x).isHead == NodeAt(s, x).isHead && NodeAt(s', x).key == NodeAt(s, x).key &&
                NodeAt(s', x).height == NodeAt(s, x).height
            && (NodeAt(s, x).links <= k ==> SkipAt(s', x, k) == SkipAt(s, x, k)) && x < |s'.nodes|
  {
    hide NodeAt, SkipAt, Action, At, Layers, Allowed, TargetOk, GrowOk, SameNode;
    PrivateUntouched(s, t, choice, u);
    if NodeAt(s, s.threads[u].target).links <= k {
      UntouchedKept(s, s', t, Action(s, t, s.threads[t], choice).1, s.threads[u].target, k);
    }
  }

  /** Whom a step links, completes or installs is its own node; whom it marks is its target or an old head. */
  lemma {:induction false} EffectTargets(s: State, t: nat, choice: Choice)
    requires t < |s.threads|
    ensures var th, e := s.threads[t], Action(s, t, s.threads[t], choice).1;
            && (e.Link? ==> th.phase == SetPred && e.y == th.target)
            && (e.SetOwnSkip? ==> (th.phase == SetOwn || th.phase == GrowCopy) && e.x == th.target)
            && (e.SetFullyLinked? ==> th.phase == SetLinked && e.x == th.target)
            && (e.SetHead? ==> th.phase == GrowCas && e.x == th.target)
            && (e.SetMarked? ==>
                   (th.phase == MarkTarget && e.x == th.target) || (th.phase == GrowMark && e.x == th.oldHead))
  {
    hide NodeAt, SkipAt, At;
  }

  /** The new head is changed by its creator alone, and the old one by whoever holds its lock. */
  lemma {:induction false} GrowersKept(s: State, s': State, t: nat, choice: Choice, u: nat, j: nat)
    requires Moved(s, s', t, choice) && u != t && Known(s, u) && u < |s.threads| && Known(s, t) &&
             !SameNode(s.threads[t], s.threads[u])
    requires s.threads[u].phase in {GrowLock, GrowCopy, GrowCas}
    ensures var th := s.threads[u];
            && SkipAt(s', th.target, j) == SkipAt(s, th.target, j)
            && (th.phase != GrowLock && j < NodeAt(s, th.oldHead).height ==>
                SkipAt(s', th.oldHead, j) == SkipAt(s, th.oldHead, j))
  {
    hide NodeAt, SkipAt, ValidOk, OldHead, SearchOk, TargetOk, Layers, Moved, OwnNode, GrowOk, HeldOk, LockOk,
         SameNode, PathAt;
    var th := s.threads[u];
    NoLinks(s, u);
    PrivateKept(s, s', t, choice, u, j);
    if th.phase != GrowLock && j < NodeAt(s, th.oldHead).height { OldHeadLocked(s, s', t, choice, u, j); }
  }

  lemma {:induction false} OthersGrow(s: State, s': State, t: nat, choice: Choice, u: nat)
    requires Moved(s, s', t, choice) && u != t && Known(s, u) && u < |s.threads| && Known(s, t) &&
             !SameNode(s.threads[t], s.threads[u])
    ensures GrowOk(s', s.threads[u])
  {
    hide NodeAt, SkipAt, At, ValidOk, OldHead, SearchOk, TargetOk, Layers, Moved, OwnNode, HeldOk, LockOk, SameNode;
    var th := s.threads[u];
    if th.phase in {GrowLock, GrowCopy, GrowCas, GrowMark} {
      OldHeadKept(s, s', t, choice, u);
      if th.phase == GrowMark {
        HeadDiffers(s, s', t, choice, th.oldHead);
      } else {
        forall j: nat
          ensures SkipAt(s', th.target, j) == SkipAt(s, th.target, j)
          ensures th.phase != GrowLock && j < NodeAt(s, th.oldHead).height ==>
                  SkipAt(s', th.oldHead, j) == SkipAt(s, th.oldHead, j)
        {
          GrowersKept(s, s', t, choice, u, j);
        }
      }
    }
  }

  lemma {:induction false} NoLinks(s: State, u: nat)
    requires u < |s.threads| && OwnNode(s, s.threads[u]) && s.threads[u].phase in {GrowLock, GrowCopy, GrowCas}
    ensures NodeAt(s, s.threads[u].target).links == 0
  {
  }

  lemma {:induction false} OldHeadLocked(s: State, s': State, t: nat, choice: Choice, u: nat, j: nat)
    requires Moved(s, s', t, choice) && u != t && u < |s.threads| && Layers(s) && GrowOk(s, s.threads[u]) &&
             HeldOk(s, s.threads[u]) && LockOk(s, u)
    requires s.threads[u].phase in {GrowCopy, GrowCas, GrowMark} && j < NodeAt(s, s.threads[u].oldHead).height
    ensures SkipAt(s', s.threads[u].oldHead, j) == SkipAt(s, s.threads[u].oldHead, j)
  {
    hide NodeAt, SkipAt, LinkUp, LinkNext, KeyOnce, Moved;
    var h := s.threads[u].oldHead;
    assert h in s.threads[u].held;
    assert NodeShape(s, h);
    LockedKept(s, s', t, choice, u, h, j);
  }

  lemma {:induction false} HeadDiffers(s: State, s': State, t: nat, choice: Choice, x: nat)
    requires Moved(s, s', t, choice) && x != s.head && NodeAt(s, x).links > 0
    ensures x != s'.head
  {
    hide NodeAt, SkipAt, Action, LinkUp, LinkNext, KeyOnce, Below, InLayer, NodeShape;
  }

  lemma {:induction false} HeldInRange(s: State, u: nat, i: nat)
    requires u < |s.threads| && LockOk(s, u) && i < |s.threads[u].held|
    ensures s.threads[u].held[i] < |s.nodes|
  {
    assert s.threads[u].held[i] in s.threads[u].held;
  }

  lemma {:induction false} DescendingKept(s: State, s': State, t: nat, choice: Choice, u: nat, held: seq<nat>)
    requires Moved(s, s', t, choice) && u < |s.threads| && LockOk(s, u) && held == s.threads[u].held &&
             Descending(s, held)
    ensures Descending(s', held)
  {
    hide NodeAt, Moved, Below, LockOk;
    forall i: nat, j: nat | i < j < |held|
      ensures Below(s', held[j], held[i])
    {
      HeldInRange(s, u, i);
      HeldInRange(s, u, j);
      OrderKept(s, s', t, choice, held[j], held[i]);
    }
  }

  lemma {:induction false} OthersHeld(s: State, s': State, t: nat, choice: Choice, u: nat)
    requires Moved(s, s', t, choice) && u != t && Known(s, u) && u < |s.threads|
    ensures HeldOk(s', s.threads[u])
  {
    hide NodeAt, SkipAt, Moved, At, OwnNode, GrowOk, ValidOk, OldHead, SearchOk, TargetOk, Layers, Descending, LockOk;
    DescendingKept(s, s', t, choice, u, s.threads[u].held);
  }

  lemma {:induction false} OthersLocks(s: State, s': State, t: nat, choice: Choice, u: nat)
    requires Moved(s, s', t, choice) && u != t && LockOk(s, u)
    ensures LockOk(s', u)
  {
    hide NodeAt, SkipAt, Action, LinkUp, LinkNext, KeyOnce, Below, InLayer, NodeShape;
    forall x: nat
      ensures x in s'.threads[u].held <==> NodeAt(s', x).lock == Some(u)
    {
      LockFieldKept(s, s', t, choice, u, x);
    }
  }

  lemma {:induction false} LockFieldKept(s: State, s': State, t: nat, choice: Choice, u: nat, x: nat)
    requires Moved(s, s', t, choice) && u != t
    ensures NodeAt(s', x).lock == Some(u) <==> NodeAt(s, x).lock == Some(u)
  {
    hide SkipAt, Action, LinkUp, LinkNext, KeyOnce, Below, InLayer, NodeShape;
  }

  lemma {:induction false} OthersFacts(s: State, s': State, t: nat, choice: Choice, u: nat)
    requires Moved(s, s', t, choice) && u != t && Known(s, u) && u < |s.threads| && Known(s, t) &&
             !SameNode(s.threads[t], s.threads[u])
    ensures u < |s'.threads| && s'.threads[u] == s.threads[u] && Facts(s', u, s'.threads[u]) && LockOk(s', u)
  {
    hide NodeAt, SkipAt, Action, Layers, SearchOk, TargetOk, ValidOk, OwnNode, GrowOk, HeldOk, LockOk, OldHead,
         SameNode, Changed;
    SearchKept(s, s', t, choice, s.threads[u]);
    OthersTarget(s, s', t, choice, u);
    OthersValid(s, s', t, choice, u);
    OthersOwn(s, s', t, choice, u);
    OthersGrow(s, s', t, choice, u);
    OthersHeld(s, s', t, choice, u);
    OthersLocks(s, s', t, choice, u);
  }
}
