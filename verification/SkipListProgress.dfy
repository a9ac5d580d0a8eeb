/** An operation on the skip list that nobody disturbs ends: it never has to start its search over, and the number of
    its steps is bounded by the height and the size of the list. */
module SkipListProgress {
  import opened Wrappers
  import opened SkipList
  import opened SkipListLayers
  import opened SkipListThreads
  import opened SkipListSteps
  import opened SkipListSafety
  import opened SkipListMembers
  import opened SkipListHistory
  import opened SkipListOutcomes

  // ---- Nobody leaves work behind ----

  predicate Builds(th: Thread, x: nat) {
    th.phase in {SetOwn, SetPred, SetLinked} && th.target == x
  }

  predicate TakesOut(th: Thread, x: nat) {
    th.op == Remove && th.isMarked && !Over(th) && th.target == x
  }

  /** A node that is not complete is being linked by somebody. */
  ghost predicate Built(s: State, x: nat) {
    NIL < x < |s.nodes| && !NodeAt(s, x).isHead && !NodeAt(s, x).fullyLinked ==>
      exists u: nat :: u < |s.threads| && Builds(s.threads[u], x)
  }

  /** A marked node that is still linked is being unlinked by somebody. */
  ghost predicate TakenOut(s: State, x: nat) {
    !NodeAt(s, x).isHead && NodeAt(s, x).marked && NodeAt(s, x).kept > 0 ==>
      exists u: nat :: u < |s.threads| && TakesOut(s.threads[u], x)
  }

  ghost predicate Attended(s: State) {
    forall x: nat :: Built(s, x) && TakenOut(s, x)
  }

  /** What becomes of the node a thread builds or takes out. */
  ghost predicate StaysWith(th: Thread, th': Thread, e: Effect) {
    && (th.phase in {SetOwn, SetPred} ==> Builds(th', th.target))
    && (th.phase == SetLinked ==> e == SetFullyLinked(th.target))
    && (th.op == Remove && th.isMarked && !Over(th) ==>
          TakesOut(th', th.target) || (e.Unlink? && e.y == th.target && e.k == 0))
    && (e.NewNode? && !e.node.isHead ==> th.phase == CreateNode && th'.phase == SetOwn)
    && (e.SetMarked? ==> if th.phase == MarkTarget then TakesOut(th', e.x)
                      else th.phase == GrowMark && e.x == th.oldHead)
  }

  lemma {:induction false} SearchStays(s: State, th: Thread, choice: Choice)
    requires Searching(th.phase) && OwnPhases(th)
    ensures StaysWith(th, SearchAction(s, th, choice).0, SearchAction(s, th, choice).1)
  {
    hide NodeAt, SkipAt, At, Update;
  }

  lemma {:induction false} LockStays(s: State, t: nat, th: Thread)
    requires Locking(th.phase) && OwnPhases(th)
    ensures StaysWith(th, LockAction(s, t, th).0, LockAction(s, t, th).1)
  {
    hide NodeAt, SkipAt, At;
  }

  lemma {:induction false} ChangeStays(s: State, t: nat, th: Thread, choice: Choice)
    requires !Searching(th.phase) && !Locking(th.phase) && th.phase != Done && OwnPhases(th)
    ensures StaysWith(th, ChangeAction(s, t, th, choice).0, ChangeAction(s, t, th, choice).1)
  {
    hide NodeAt, SkipAt, At;
  }

  lemma {:induction false} ActionStays(s: State, t: nat, th: Thread, choice: Choice)
    requires OwnPhases(th)
    ensures StaysWith(th, Action(s, t, th, choice).0, Action(s, t, th, choice).1)
  {
    hide SearchAction, LockAction, ChangeAction, Searching, Locking, OwnPhases, Over;
    if th.phase == Done { NothingToStay(th, Begin(choice)); }
    else if Searching(th.phase) { SearchStays(s, th, choice); }
    else if Locking(th.phase) { LockStays(s, t, th); }
    else { ChangeStays(s, t, th, choice); }
  }

  lemma {:induction false} NothingToStay(th: Thread, th': Thread)
    requires th.phase == Done
    ensures StaysWith(th, th', NoEffect)
  {
  }

  lemma {:induction false} BuiltStays(s: State, s': State, t: nat, choice: Choice, x: nat)
    requires Known(s, t) && Moved(s, s', t, choice) && Built(s, x)
    ensures Built(s', x)
  {
    hide NodeAt, SkipAt, Action, Known, Layers;
    var e := Action(s, t, s.threads[t], choice).1;
    PhasesAreOwn(s, t);
    ActionStays(s, t, s.threads[t], choice);
    MovedIsChange(s, s', t, choice);
    if NIL < x < |s'.nodes| && !NodeAt(s', x).isHead && !NodeAt(s', x).fullyLinked {
      CompleteAfter(s, s', t, e, x);
      if x == |s.nodes| {
        NewTarget(s, t, choice);
        assert Builds(s'.threads[t], x);
      } else {
        var u: nat :| u < |s.threads| && Builds(s.threads[u], x);
        assert Builds(s'.threads[u], x);
      }
    }
  }

  lemma {:induction false} NewTarget(s: State, t: nat, choice: Choice)
    requires t < |s.threads| && s.threads[t].phase == CreateNode
    ensures Action(s, t, s.threads[t], choice).0.target == |s.nodes|
  {
    hide NodeAt, SkipAt, At;
  }

  lemma {:induction false} CompleteAfter(s: State, s': State, t: nat, e: Effect, x: nat)
    requires Changed(s, s', t, e) && x < |s'.nodes|
    ensures if x < |s.nodes| then
              NodeAt(s', x).isHead == NodeAt(s, x).isHead &&
              NodeAt(s', x).fullyLinked == (NodeAt(s, x).fullyLinked || e == SetFullyLinked(x))
            else e.NewNode? && x == |s.nodes| && NodeAt(s', x) == e.node
  {
    hide NodeAt, SkipAt, Layers;
  }

  lemma {:induction false} TakenOutStays(s: State, s': State, t: nat, choice: Choice, x: nat)
    requires Known(s, t) && Moved(s, s', t, choice) && TakenOut(s, x)
    ensures TakenOut(s', x)
  {
    hide NodeAt, SkipAt, Action, Known, Layers, Over;
    var e := Action(s, t, s.threads[t], choice).1;
    PhasesAreOwn(s, t);
    ActionStays(s, t, s.threads[t], choice);
    MovedIsChange(s, s', t, choice);
    GrowMarksHead(s, t);
    if !NodeAt(s', x).isHead && NodeAt(s', x).marked && NodeAt(s', x).kept > 0 {
      MarksAfter(s, s', t, e, x);
      if NodeAt(s, x).marked {
        var u: nat :| u < |s.threads| && TakesOut(s.threads[u], x);
        assert TakesOut(s'.threads[u], x);
      } else {
        assert TakesOut(s'.threads[t], x);
      }
    }
  }

  lemma {:induction false} GrowMarksHead(s: State, t: nat)
    requires t < |s.threads| && Known(s, t)
    ensures s.threads[t].phase == GrowMark ==> NodeAt(s, s.threads[t].oldHead).isHead
  {
    hide NodeAt, SkipAt, Layers, SearchOk, TargetOk, ValidOk, OwnNode, HeldOk, LockOk, OldHead;
  }

  lemma {:induction false} MarksAfter(s: State, s': State, t: nat, e: Effect, x: nat)
    requires Changed(s, s', t, e) && !NodeAt(s', x).isHead && NodeAt(s', x).marked && NodeAt(s', x).kept > 0
    ensures !NodeAt(s, x).isHead && NodeAt(s, x).kept > 0 && !(e.Unlink? && e.y == x && e.k == 0)
    ensures NodeAt(s, x).marked || e == SetMarked(x)
  {
    hide SkipAt, LinkUp, LinkNext, KeyOnce, NodeShape, Below;
  }

  lemma {:induction false} RunIsAttended(run: seq<State>, n: nat)
    requires Reachable(run) && n < |run|
    ensures Attended(run[n])
    decreases n
  {
    hide Inv, Init, Step, Known, Built, TakenOut, Moved, NodeAt;
    if n == 0 {
      StartIsAttended(run[0]);
    } else {
      RunIsAttended(run, n - 1);
      RunKeepsInv(run, n - 1);
      assert Next(run[n - 1], run[n]);
      var t: nat, choice :| t < |run[n - 1].threads| && run[n] == Step(run[n - 1], t, choice);
      InvKnown(run[n - 1], t);
      StepMoves(run[n - 1], t, choice);
      forall x: nat
        ensures Built(run[n], x) && TakenOut(run[n], x)
      {
        BuiltStays(run[n - 1], run[n], t, choice, x);
        TakenOutStays(run[n - 1], run[n], t, choice, x);
      }
    }
  }

  lemma {:induction false} StartIsAttended(s: State)
    requires Init(s)
    ensures Attended(s)
  {
  }

  // ---- A thread alone ----

  /** Nobody but t has begun anything. */
  ghost predicate Alone(s: State, t: nat) {
    t < |s.threads| && forall u: nat :: u < |s.threads| && u != t ==> s.threads[u].phase == Done
  }

  /** What others have left is complete and not marked. */
  lemma {:induction false} LeftClean(s: State, t: nat, x: nat, k: nat)
    requires Layers(s) && Alone(s, t) && Attended(s) && InLayer(s, x, k)
    requires !Builds(s.threads[t], x) && !TakesOut(s.threads[t], x)
    ensures NodeAt(s, x).isHead || NodeAt(s, x).fullyLinked
    ensures !NodeAt(s, x).marked
  {
    hide SkipAt, LinkUp, LinkNext, KeyOnce, NodeShape;
    assert Built(s, x) && TakenOut(s, x);
    InRange(s, x, k);
    DeletedNotNil(s, x, k);
  }

  /** And not locked. */
  lemma {:induction false} LeftUnlocked(s: State, t: nat, x: nat)
    requires Inv(s) && Alone(s, t) && x !in s.threads[t].held
    ensures NodeAt(s, x).lock == None
  {
    hide NodeAt, SkipAt, Layers, SearchOk, TargetOk, ValidOk, OwnNode, GrowOk, OldHead, Descending;
    assert OwnerOk(s, x);
    forall u: nat | u < |s.threads|
      ensures NodeAt(s, x).lock != Some(u)
    {
      assert LockOk(s, u) && HeldOk(s, s.threads[u]);
    }
  }

  /** The neighbours from layer lo upwards are still what the search has found them to be. */
  ghost predicate Current(s: State, preds: seq<nat>, succs: seq<nat>, lo: nat, top: nat) {
    forall l: nat :: lo <= l <= top ==> InLayer(s, At(preds, l), l) && SkipAt(s, At(preds, l), l) == At(succs, l)
  }

  ghost predicate FoundIn(s: State, found: nat, x: nat) {
    found > 0 ==> InLayer(s, x, found - 1)
  }

  /** The neighbours are still needed. */
  predicate Looking(phase: Phase) {
    phase in {AddCheckMarked, AddWaitLinked, RemoveCheckLinked, RemoveCheckMarked, LockTarget, RecheckMarked,
              MarkTarget,
              LockPred, CheckPred, CheckLink, CheckSucc}
  }

  /** What a thread that has been alone all the time knows. */
  ghost predicate Undisturbed(s: State, th: Thread) {
    && (th.phase in {LoadHead, ReadSkip} || Looking(th.phase) ==> th.top + 1 == ListHeight(s))
    && (th.phase == ReadSkip ==>
          InLayer(s, th.pred, th.layer) && Current(s, th.preds, th.succs, th.layer + 1, th.top) &&
              FoundIn(s, th.found, th.foundNode))
    && (Looking(th.phase) ==> Current(s, th.preds, th.succs, 0, th.top) && FoundIn(s, th.found, th.foundNode))
    && (Searching(th.phase) ==> !th.isMarked)
    && (th.phase == Release ==> th.next != LoadHeight)
  }

  // ---- What is left to do ----

  /** The nodes that come after x. */
  ghost function Above(s: State, x: nat): set<nat> {
    set z: nat | z < |s.nodes| && Below(s, x, z)
  }

  lemma {:induction false} AboveFits(s: State, x: nat)
    ensures |Above(s, x)| <= |s.nodes|
  {
    hide Below;
    NumbersFit(Above(s, x), |s.nodes|);
  }

  lemma {:induction false} NumbersFit(numbers: set<nat>, n: nat)
    requires forall z :: z in numbers ==> z < n
    ensures |numbers| <= n
    decreases n
  {
    if n > 0 {
      NumbersFit(numbers - {n - 1}, n - 1);
      if n - 1 in numbers { assert numbers == (numbers - {n - 1}) + {n - 1}; }
      else { assert numbers == numbers - {n - 1}; }
    } else {
      assert numbers == {};
    }
  }

  lemma {:induction false} LessAbove(s: State, x: nat, y: nat)
    requires Below(s, x, y) && y < |s.nodes|
    ensures |Above(s, y)| < |Above(s, x)|
  {
    hide NodeAt;
    forall z | z in Above(s, y)
      ensures z in Above(s, x)
    {
      BelowTransitive(s, x, y, z);
    }
    BelowIrreflexive(s, y);
    assert y in Above(s, x) && y !in Above(s, y);
    SmallerSet(Above(s, y), Above(s, x), y);
  }

  lemma {:induction false} SmallerSet(a: set<nat>, b: set<nat>, y: nat)
    requires a <= b && y in b && y !in a
    ensures |a| < |b|
  {
    assert a <= b - {y};
    Subset(a, b - {y});
  }

  lemma {:induction false} Subset(a: set<nat>, b: set<nat>)
    requires a <= b
    ensures |a| <= |b|
    decreases a
  {
    if a != {} {
      var x :| x in a;
      Subset(a - {x}, b - {x});
    }
  }

  /** What is left when the search is over. */
  function AfterSearch(s: State): nat {
    8 * ListHeight(s) + 22
  }

  function ToCheck(th: Thread): nat {
    if th.layer < th.height then 5 * (th.height - th.layer) else 0
  }

  ghost function SearchCost(s: State, th: Thread): nat {
    var n := |s.nodes|;
    match th.phase
    case LoadHeight => AfterSearch(s) + 3 + ListHeight(s) * (n + 1) + n
    case LoadHead => AfterSearch(s) + 2 + th.top * (n + 1) + n
    case ReadSkip => AfterSearch(s) + 1 + th.layer * (n + 1) + |Above(s, th.pred)|
    case RemoveCheckLinked => AfterSearch(s)
    case RemoveCheckMarked => AfterSearch(s) - 1
    case AddCheckMarked => 2
    case _ => 1
  }

  function LockCost(s: State, th: Thread): nat {
    var h := ListHeight(s);
    match th.phase
    case LockTarget => 18 + h + 7 * th.height
    case RecheckMarked => 16 + h + 7 * th.height
    case MarkTarget => 15 + h + 7 * th.height
    case LockPred => 14 + h + 2 * th.height + ToCheck(th)
    case CheckPred => 12 + h + 2 * th.height + ToCheck(th)
    case CheckLink => 11 + h + 2 * th.height + ToCheck(th)
    case CheckSucc => 10 + h + 2 * th.height + ToCheck(th)
    case _ => if th.next == GrowHeight then 11 + h else 1
  }

  function ChangeCost(s: State, th: Thread): nat {
    var h := ListHeight(s);
    var left := if th.layer < th.height then 2 * (th.height - th.layer) else 0;
    match th.phase
    case CreateNode => 14 + h + 2 * th.height
    case SetOwn => 13 + h + left
    case SetPred => 12 + h + left
    case SetLinked => 12 + h
    case ReadTarget => 2 * th.layer + 4
    case UnlinkPred => 2 * th.layer + 3
    case GrowHeight => 10 + h
    case GrowLoad => 9 + h
    case GrowLock => 8 + NodeAt(s, th.oldHead).height
    case GrowCopy =>
      5 + if th.layer < NodeAt(s, th.oldHead).height then NodeAt(s, th.oldHead).height - th.layer else 0
    case GrowCas => 4
    case GrowMark => 3
    case _ => 0
  }

  /** The steps a thread that is alone still has to take. */
  ghost function Due(s: State, th: Thread): nat {
    |th.held| + if th.phase == Done then 0
                else if Searching(th.phase) then SearchCost(s, th)
                else if Locking(th.phase) then LockCost(s, th)
                else ChangeCost(s, th)
  }

  // ---- The search ----

  /** Moving on along a layer. */
  lemma {:induction false} MovesOn(s: State, t: nat, choice: Choice)
    requires Known(s, t) && s.threads[t].phase == ReadSkip && Undisturbed(s, s.threads[t])
    requires var th := s.threads[t]; var y := SkipAt(s, th.pred, th.layer); y != NIL && NodeAt(s, y).key < th.data
    ensures var th' := Action(s, t, s.threads[t], choice).0; Undisturbed(s, th') && Due(s, th') < Due(s, s.threads[t])
  {
    hide NodeAt, SkipAt, Facts, LockOk, OldHead, InLayer, NodeShape, KeyOnce, Above, Below;
    var th := s.threads[t];
    var y := SkipAt(s, th.pred, th.layer);
    assert LinkNext(s, th.pred, th.layer);
    InRange(s, th.pred, th.layer);
    assert LinkUp(s, th.pred, th.layer);
    InRange(s, y, th.layer);
    LessAbove(s, th.pred, y);
  }

  /** What is met at the end of a layer is the node found before, if one was. */
  lemma {:induction false} MetIsFound(s: State, th: Thread)
    requires Layers(s) && InLayer(s, th.pred, th.layer) && BelowKey(s, th.pred, th.data) &&
             FoundIn(s, th.found, th.foundNode)
    requires th.found > th.layer + 1 && !NodeAt(s, th.foundNode).isHead && NodeAt(s, th.foundNode).key == th.data
    requires var y := SkipAt(s, th.pred, th.layer); !(y != NIL && NodeAt(s, y).key < th.data)
    ensures SkipAt(s, th.pred, th.layer) == th.foundNode
  {
    hide SkipAt, NodeShape, KeyOnce;
    assert LinkNext(s, th.pred, th.layer) && LinkUp(s, th.pred, th.layer);
    assert InLayer(s, th.foundNode, th.layer) && Below(s, th.pred, th.foundNode);
  }

  /** What a searching thread knows. */
  lemma {:induction false} Reads(s: State, t: nat)
    requires Known(s, t) && s.threads[t].phase == ReadSkip
    ensures var th := s.threads[t];
            && th.layer <= th.top && |th.preds| == th.top + 1 && |th.succs| == th.top + 1 &&
                BelowKey(s, th.pred, th.data)
            && (th.found > 0 ==> th.found > th.layer + 1 && !NodeAt(s, th.foundNode).isHead &&
                                 NodeAt(s, th.foundNode).key == th.data)
  {
    hide NodeAt, SkipAt, LockOk, OldHead, InLayer, TargetOk, ValidOk, OwnNode, GrowOk, HeldOk, Layers, PathAt, Below,
         BelowKey, EverLinked;
  }

  /** The end of a layer. */
  lemma {:induction false} LayerEnds(s: State, t: nat)
    requires Known(s, t) && s.threads[t].phase == ReadSkip && Undisturbed(s, s.threads[t])
    requires var th := s.threads[t]; var y := SkipAt(s, th.pred, th.layer); !(y != NIL && NodeAt(s, y).key < th.data)
    ensures var th := s.threads[t]; var th1 := SearchStep(s, th);
            && Current(s, th1.preds, th1.succs, th.layer, th1.top) && FoundIn(s, th1.found, th1.foundNode) &&
                th1.top == th.top && th1.held == th.held && th1.op == th.op
            && th1.pred == th.pred && th1.isMarked == th.isMarked && th1.phase == th.phase
            && th1.layer == if th.layer > 0 then th.layer - 1 else 0
  {
    hide NodeAt, SkipAt, LockOk, OldHead, InLayer, Layers, Facts, Current, BelowKey, SearchStep;
    var th := s.threads[t];
    KnownLayers(s, t);
    Reads(s, t);
    EndOfLayer(s, th);
  }

  lemma {:induction false} EndOfLayer(s: State, th: Thread)
    requires Layers(s) && InLayer(s, th.pred, th.layer) && Current(s, th.preds, th.succs, th.layer + 1, th.top) &&
             FoundIn(s, th.found, th.foundNode)
    requires th.layer <= th.top && |th.preds| == th.top + 1 && |th.succs| == th.top + 1 && BelowKey(s, th.pred, th.data)
    requires th.found > 0 ==> th.found > th.layer + 1 && !NodeAt(s, th.foundNode).isHead &&
                              NodeAt(s, th.foundNode).key == th.data
    requires var y := SkipAt(s, th.pred, th.layer); !(y != NIL && NodeAt(s, y).key < th.data)
    ensures var th1 := SearchStep(s, th);
            && Current(s, th1.preds, th1.succs, th.layer, th1.top) && FoundIn(s, th1.found, th1.foundNode) &&
                th1.top == th.top && th1.held == th.held && th1.op == th.op
            && th1.pred == th.pred && th1.isMarked == th.isMarked && th1.phase == th.phase
            && th1.layer == if th.layer > 0 then th.layer - 1 else 0
  {
    hide NodeAt, SkipAt, InLayer, Layers, BelowKey;
    var y := SkipAt(s, th.pred, th.layer);
    if th.found > 0 { MetIsFound(s, th); }
    else if y != NIL { NextIsIn(s, th.pred, th.layer); }
    var th1 := SearchStep(s, th);
    assert At(th1.succs, th.layer) == y && At(th1.preds, th.layer) == th.pred;
    forall l: nat | th.layer <= l <= th1.top
      ensures InLayer(s, At(th1.preds, l), l) && SkipAt(s, At(th1.preds, l), l) == At(th1.succs, l)
    {
      if l > th.layer {
        assert th.layer + 1 <= l <= th.top;
        assert At(th1.preds, l) == At(th.preds, l) && At(th1.succs, l) == At(th.succs, l);
      }
    }
  }

  lemma {:induction false} NextIsIn(s: State, x: nat, k: nat)
    requires Layers(s) && InLayer(s, x, k) && SkipAt(s, x, k) != NIL
    ensures InLayer(s, SkipAt(s, x, k), k)
  {
    hide NodeAt, SkipAt, InLayer, LinkUp, KeyOnce, NodeShape;
    assert LinkNext(s, x, k);
  }

  lemma {:induction false} OneLess(a: nat, b: nat, x: nat)
    requires a < b
    ensures a * x <= b * x && a * x + x <= b * x
  {
    TimesAtMost(a + 1, b, x);
  }

  lemma {:induction false} TimesAtMost(a: nat, b: nat, x: nat)
    requires a <= b
    ensures a * x <= b * x
  {
  }

  /** Loading the height and the head. */
  lemma {:induction false} Loads(s: State, t: nat, choice: Choice)
    requires Known(s, t) && s.threads[t].phase in {LoadHeight, LoadHead} && Undisturbed(s, s.threads[t])
    ensures var th' := Action(s, t, s.threads[t], choice).0; Undisturbed(s, th') && Due(s, th') < Due(s, s.threads[t])
  {
    hide NodeAt, SkipAt, Facts, LockOk, OldHead, InLayer, Layers, Above;
    KnownLayers(s, t);
    NilIsNoHead(s);
    OneLess(ListHeight(s) - 1, ListHeight(s), |s.nodes| + 1);
    AboveFits(s, s.head);
    HeadIn(s, s.threads[t].top);
  }

  /** One layer down. */
  lemma {:induction false} GoesDown(s: State, t: nat, choice: Choice)
    requires Known(s, t) && s.threads[t].phase == ReadSkip && Undisturbed(s, s.threads[t]) && s.threads[t].layer > 0
    requires var th := s.threads[t]; var y := SkipAt(s, th.pred, th.layer); !(y != NIL && NodeAt(s, y).key < th.data)
    ensures var th' := Action(s, t, s.threads[t], choice).0; Undisturbed(s, th') && Due(s, th') < Due(s, s.threads[t])
  {
    hide NodeAt, SkipAt, Facts, LockOk, OldHead, Layers, Above, SearchStep, Current;
    var th := s.threads[t];
    LayerEnds(s, t);
    OneLess(th.layer - 1, th.layer, |s.nodes| + 1);
    assert InLayer(s, th.pred, th.layer - 1);
  }

  /** The search is over. */
  lemma {:induction false} SearchEnds(s: State, t: nat, choice: Choice)
    requires Known(s, t) && s.threads[t].phase == ReadSkip && Undisturbed(s, s.threads[t]) && s.threads[t].layer == 0
    requires var th := s.threads[t]; var y := SkipAt(s, th.pred, th.layer); !(y != NIL && NodeAt(s, y).key < th.data)
    ensures var th' := Action(s, t, s.threads[t], choice).0; Undisturbed(s, th') && Due(s, th') < Due(s, s.threads[t])
  {
    hide NodeAt, SkipAt, Facts, LockOk, OldHead, Layers, Above, SearchStep, InLayer;
    var th1 := SearchStep(s, s.threads[t]);
    LayerEnds(s, t);
    assert Current(s, th1.preds, th1.succs, 0, th1.top);
  }

  /** What the thread knows of the node it has found. */
  lemma {:induction false} HasFound(s: State, t: nat)
    requires Known(s, t) && s.threads[t].phase in {AddCheckMarked, AddWaitLinked, RemoveCheckLinked, RemoveCheckMarked}
    ensures var th := s.threads[t];
            && th.found > 0 && !th.isMarked && (th.phase in {AddCheckMarked, AddWaitLinked} ==> th.op == Add)
            && th.found <= th.top + 1 && !NodeAt(s, th.foundNode).isHead
            && (th.phase == RemoveCheckMarked ==> NodeAt(s, th.foundNode).height == th.found)
  {
    hide NodeAt, SkipAt, LockOk, OldHead, InLayer, TargetOk, ValidOk, OwnNode, GrowOk, HeldOk, Layers, PathFrom,
         EverLinked;
  }

  /** What an add does with the node it has found. */
  lemma {:induction false} AddGoesOn(s: State, t: nat, choice: Choice)
    requires Known(s, t) && s.threads[t].phase in {AddCheckMarked, AddWaitLinked} && Undisturbed(s, s.threads[t])
    requires Alone(s, t) && Attended(s)
    ensures var th' := Action(s, t, s.threads[t], choice).0; Undisturbed(s, th') && Due(s, th') < Due(s, s.threads[t])
  {
    hide NodeAt, SkipAt, LockOk, OldHead, Layers, Above, InLayer, Facts, Alone, Attended, Current;
    var th := s.threads[t];
    KnownLayers(s, t);
    HasFound(s, t);
    LeftClean(s, t, th.foundNode, th.found - 1);
  }

  /** What a remove does with it. */
  lemma {:induction false} RemoveGoesOn(s: State, t: nat, choice: Choice)
    requires Known(s, t) && s.threads[t].phase in {RemoveCheckLinked, RemoveCheckMarked} && Undisturbed(s, s.threads[t])
    ensures var th' := Action(s, t, s.threads[t], choice).0; Undisturbed(s, th') && Due(s, th') < Due(s, s.threads[t])
  {
    hide NodeAt, SkipAt, LockOk, OldHead, Layers, Above, InLayer, Facts;
    HasFound(s, t);
  }

  lemma {:induction false} SearchGoesOn(s: State, t: nat, choice: Choice)
    requires Known(s, t) && Searching(s.threads[t].phase) && Undisturbed(s, s.threads[t]) && Alone(s, t) && Attended(s)
    ensures var th' := Action(s, t, s.threads[t], choice).0; Undisturbed(s, th') && Due(s, th') < Due(s, s.threads[t])
  {
    hide NodeAt, SkipAt, Facts, LockOk, OldHead, Layers, Undisturbed, Due, Alone, Attended, Action;
    var th := s.threads[t];
    if th.phase in {LoadHeight, LoadHead} { Loads(s, t, choice); }
    else if th.phase in {AddCheckMarked, AddWaitLinked} { AddGoesOn(s, t, choice); }
    else if th.phase in {RemoveCheckLinked, RemoveCheckMarked} { RemoveGoesOn(s, t, choice); }
    else if SkipAt(s, th.pred, th.layer) != NIL && NodeAt(s, SkipAt(s, th.pred, th.layer)).key < th.data {
      MovesOn(s, t, choice);
    } else if th.layer > 0 { GoesDown(s, t, choice); }
    else { SearchEnds(s, t, choice); }
  }

  // ---- Locking and checking ----

  ghost predicate Ready(s: State, t: nat) {
    t < |s.threads| && Inv(s) && Known(s, t) && Alone(s, t) && Attended(s) && Undisturbed(s, s.threads[t])
  }

  /** What the locking thread knows of its numbers. */
  lemma {:induction false} Numbers(s: State, t: nat)
    requires Known(s, t)
    ensures var th := s.threads[t];
            && (th.phase == LockTarget ==> th.held == [])
            && (Checking(th.phase) ==> th.layer < th.height <= th.top + 1)
            && (th.phase in {LockTarget, RecheckMarked, MarkTarget} ==> 0 < th.height <= th.top + 1)
            && (th.phase in {CheckPred, CheckLink, CheckSucc} ==> th.isMarked || th.op == Add)
            && (th.phase == CheckSucc ==> th.op == Add)
  {
    hide NodeAt, SkipAt, LockOk, OldHead, Layers, SearchOk, OwnNode, GrowOk, Descending, Valid, At;
  }

  /** Taking the lock of the node to remove. */
  lemma {:induction false} LocksTarget(s: State, t: nat, choice: Choice)
    requires Ready(s, t) && s.threads[t].phase == LockTarget
    ensures var th' := Action(s, t, s.threads[t], choice).0; Undisturbed(s, th') && Due(s, th') < Due(s, s.threads[t])
  {
    hide NodeAt, SkipAt, Layers, InLayer, Known, Inv, Attended, Current, FoundIn, Alone;
    Numbers(s, t);
    LeftUnlocked(s, t, s.threads[t].target);
  }

  /** Taking that of a predecessor. */
  lemma {:induction false} LocksPred(s: State, t: nat, choice: Choice)
    requires Ready(s, t) && s.threads[t].phase == LockPred
    ensures var th' := Action(s, t, s.threads[t], choice).0; Undisturbed(s, th') && Due(s, th') < Due(s, s.threads[t])
  {
    hide NodeAt, SkipAt, Layers, InLayer, Known, Inv, Attended, Current, FoundIn, Alone, At;
    var th := s.threads[t];
    Numbers(s, t);
    if Wanted(th).Some? {
      NotTwice(s, t, At(th.preds, th.layer));
      LeftUnlocked(s, t, At(th.preds, th.layer));
    }
  }

  /** Marking. */
  lemma {:induction false} MarksOn(s: State, t: nat, choice: Choice)
    requires Ready(s, t) && s.threads[t].phase in {RecheckMarked, MarkTarget}
    ensures var th' := Action(s, t, s.threads[t], choice).0; Undisturbed(s, th') && Due(s, th') < Due(s, s.threads[t])
  {
    hide NodeAt, SkipAt, Layers, InLayer, Known, Inv, Attended, Current, FoundIn, Alone;
    Numbers(s, t);
  }

  /** The predecessor is not the node to remove. */
  lemma {:induction false} PredIsOther(s: State, t: nat)
    requires Known(s, t) && s.threads[t].phase in {CheckPred, CheckLink, CheckSucc}
    ensures !TakesOut(s.threads[t], At(s.threads[t].preds, s.threads[t].layer))
  {
    hide NodeAt, SkipAt, LockOk, OldHead, Layers, OwnNode, GrowOk, HeldOk, Valid, At, EverLinked;
    assert PathAt(s, s.threads[t], s.threads[t].layer);
  }

  /** What the search has found at this layer is still there. */
  lemma {:induction false} StillThere(s: State, t: nat)
    requires Ready(s, t) && s.threads[t].phase in {CheckPred, CheckLink, CheckSucc}
    ensures var th := s.threads[t]; var p, y := At(th.preds, th.layer), At(th.succs, th.layer);
            && !NodeAt(s, p).marked && SkipAt(s, p, th.layer) == y
            && (th.op == Add && y != NIL ==> !NodeAt(s, y).marked)
  {
    hide NodeAt, SkipAt, Known, Inv, Layers, Alone, Attended, FoundIn, At, InLayer;
    var th := s.threads[t];
    Numbers(s, t);
    KnownLayers(s, t);
    PredIsOther(s, t);
    var p, y := At(th.preds, th.layer), At(th.succs, th.layer);
    assert InLayer(s, p, th.layer) && SkipAt(s, p, th.layer) == y;
    LeftClean(s, t, p, th.layer);
    if th.op == Add && y != NIL {
      NextIsIn(s, p, th.layer);
      LeftClean(s, t, y, th.layer);
    }
  }

  /** Checking a layer. */
  lemma {:induction false} ChecksOn(s: State, t: nat, choice: Choice)
    requires Ready(s, t) && s.threads[t].phase in {CheckPred, CheckLink, CheckSucc}
    ensures var th' := Action(s, t, s.threads[t], choice).0; Undisturbed(s, th') && Due(s, th') < Due(s, s.threads[t])
  {
    hide NodeAt, SkipAt, Layers, InLayer, Known, Inv, Attended, Current, FoundIn, Alone, At, ListHeight, SearchCost;
    Numbers(s, t);
    StillThere(s, t);
  }

  /** Giving locks back. */
  lemma {:induction false} ReleasesOn(s: State, t: nat, choice: Choice)
    requires Ready(s, t) && s.threads[t].phase == Release
    ensures var th' := Action(s, t, s.threads[t], choice).0; Undisturbed(s, th') && Due(s, th') < Due(s, s.threads[t])
  {
    hide NodeAt, SkipAt, Layers, InLayer, Known, Inv, Attended, Current, FoundIn, Alone, At;
    ReleaseFacts(s, t);
  }

  lemma {:induction false} ReleaseFacts(s: State, t: nat)
    requires Known(s, t) && s.threads[t].phase == Release
    ensures s.threads[t].next in {LoadHeight, Done, GrowHeight}
  {
    hide NodeAt, SkipAt, LockOk, OldHead, Layers, SearchOk, TargetOk, ValidOk, OwnNode, GrowOk, Descending;
  }

  lemma {:induction false} LockGoesOn(s: State, t: nat, choice: Choice)
    requires t < |s.threads| && Ready(s, t) && Locking(s.threads[t].phase)
    ensures var th' := Action(s, t, s.threads[t], choice).0; Undisturbed(s, th') && Due(s, th') < Due(s, s.threads[t])
  {
    hide Ready, Undisturbed, Due, Action;
    match s.threads[t].phase
    case LockTarget => LocksTarget(s, t, choice);
    case LockPred => LocksPred(s, t, choice);
    case RecheckMarked => MarksOn(s, t, choice);
    case MarkTarget => MarksOn(s, t, choice);
    case Release => ReleasesOn(s, t, choice);
    case _ => ChecksOn(s, t, choice);
  }

  // ---- Linking, unlinking and growing ----

  lemma {:induction false} ChangeNumbers(s: State, t: nat)
    requires Known(s, t) && !Searching(s.threads[t].phase) && !Locking(s.threads[t].phase)
    ensures var th := s.threads[t];
            && (th.phase in {SetOwn, SetPred} ==> th.layer < th.height)
            && (th.phase == GrowCopy ==> th.layer < NodeAt(s, th.oldHead).height)
            && (th.phase == GrowLock ==> th.held == [])
  {
    hide NodeAt, SkipAt, LockOk, OldHead, Layers, SearchOk, TargetOk, OwnNode, Descending, Valid, At;
  }

  lemma {:induction false} LinksOn(s: State, t: nat, choice: Choice)
    requires Ready(s, t) && s.threads[t].phase in {CreateNode, SetOwn, SetPred}
    ensures var th' := Action(s, t, s.threads[t], choice).0; Undisturbed(s, th') && Due(s, th') < Due(s, s.threads[t])
  {
    hide NodeAt, SkipAt, Layers, InLayer, Known, Inv, Attended, Current, FoundIn, Alone, At, FreshNode, ListHeight,
         SearchCost, LockCost;
    ChangeNumbers(s, t);
  }

  lemma {:induction false} UnlinksOn(s: State, t: nat, choice: Choice)
    requires Ready(s, t) && s.threads[t].phase in {SetLinked, ReadTarget, UnlinkPred}
    ensures var th' := Action(s, t, s.threads[t], choice).0; Undisturbed(s, th') && Due(s, th') < Due(s, s.threads[t])
  {
    hide NodeAt, SkipAt, Layers, InLayer, Known, Inv, Attended, Current, FoundIn, Alone, At, FreshNode, ListHeight,
         SearchCost;
  }

  lemma {:induction false} GrowsOn(s: State, t: nat, choice: Choice)
    requires Ready(s, t) && s.threads[t].phase in {GrowHeight, GrowMark}
    ensures var th' := Action(s, t, s.threads[t], choice).0; Undisturbed(s, th') && Due(s, th') < Due(s, s.threads[t])
  {
    hide NodeAt, SkipAt, Layers, InLayer, Known, Inv, Attended, Current, FoundIn, Alone, At, FreshNode, SearchCost,
         ListHeight;
  }

  lemma {:induction false} CreatesHead(s: State, t: nat, choice: Choice)
    requires Ready(s, t) && s.threads[t].phase == GrowLoad
    ensures var th' := Action(s, t, s.threads[t], choice).0; Undisturbed(s, th') && Due(s, th') < Due(s, s.threads[t])
  {
    hide NodeAt, SkipAt, Layers, InLayer, Known, Inv, Attended, Current, FoundIn, Alone, At, FreshNode, SearchCost,
         LockCost;
  }

  lemma {:induction false} CopiesOn(s: State, t: nat, choice: Choice)
    requires Ready(s, t) && s.threads[t].phase in {GrowLock, GrowCopy, GrowCas}
    ensures var th' := Action(s, t, s.threads[t], choice).0; Undisturbed(s, th') && Due(s, th') < Due(s, s.threads[t])
  {
    hide NodeAt, SkipAt, Layers, InLayer, Known, Inv, Attended, Current, FoundIn, Alone, At, FreshNode, SearchCost,
         ListHeight;
    ChangeNumbers(s, t);
    if s.threads[t].phase == GrowLock { LeftUnlocked(s, t, s.threads[t].oldHead); }
  }

  /** A thread goes on with less to do, in the memory as it was. */
  lemma {:induction false} GoesOn(s: State, t: nat, choice: Choice)
    requires t < |s.threads| && Ready(s, t) && s.threads[t].phase != Done
    ensures var th' := Action(s, t, s.threads[t], choice).0; Undisturbed(s, th') && Due(s, th') < Due(s, s.threads[t])
  {
    hide Inv, Known, Alone, Attended, Undisturbed, Due, Action;
    if Searching(s.threads[t].phase) { SearchGoesOn(s, t, choice); }
    else if Locking(s.threads[t].phase) { LockGoesOn(s, t, choice); }
    else if s.threads[t].phase in {GrowHeight, GrowMark} { GrowsOn(s, t, choice); }
    else if s.threads[t].phase == GrowLoad { CreatesHead(s, t, choice); }
    else if s.threads[t].phase in {GrowLock, GrowCopy, GrowCas} { CopiesOn(s, t, choice); }
    else if s.threads[t].phase in {CreateNode, SetOwn, SetPred} { LinksOn(s, t, choice); }
    else { UnlinksOn(s, t, choice); }
  }

  // ---- The memory after the step ----

  /** The effects of a thread that still needs its neighbours, or begins to. */
  predicate Harmless(e: Effect) {
    e.NoEffect? || e.TakeLock? || e.DropLock? || e.SetMarked?
  }

  lemma {:induction false} LooksHarmless(s: State, t: nat, choice: Choice)
    requires t < |s.threads|
    ensures var (th', e) := Action(s, t, s.threads[t], choice);
            && (Searching(th'.phase) || Looking(th'.phase) ==> Harmless(e))
            && (e.SetHead? ==> th'.phase == GrowMark)
            && (e.NewNode? ==> th'.phase in {SetOwn, GrowLock})
  {
    hide NodeAt, SkipAt, At, FreshNode;
  }

  lemma {:induction false} PathAfter(s: State, s': State, t: nat, e: Effect, th: Thread)
    requires Changed(s, s', t, e) && Undisturbed(s, th) && (Searching(th.phase) || Looking(th.phase) ==> Harmless(e))
    ensures Undisturbed(s', th)
  {
    hide NodeAt, SkipAt, At, Layers;
    assert Harmless(e) ==> forall x: nat, k: nat :: InLayer(s, x, k) ==> InLayer(s', x, k);
  }

  lemma {:induction false} DueAfter(s: State, s': State, t: nat, e: Effect, th: Thread)
    requires Changed(s, s', t, e) && (Searching(th.phase) ==> Harmless(e)) && (e.SetHead? ==> th.phase == GrowMark)
    requires e.NewNode? && th.phase == GrowLock ==> th.oldHead < |s.nodes|
    requires th.phase in {GrowLock, GrowCopy} ==> th.oldHead < |s.nodes|
    ensures Due(s', th) == Due(s, th)
  {
    hide NodeAt, SkipAt, At, LinkUp, LinkNext, KeyOnce, NodeShape, InLayer;
    HeadInRange(s);
    if Searching(th.phase) { assert Above(s', th.pred) == Above(s, th.pred); }
  }

  lemma {:induction false} HeadInRange(s: State)
    requires Layers(s)
    ensures s.head < |s.nodes|
  {
    hide NodeAt, SkipAt;
  }

  lemma {:induction false} OldHeadInRange(s: State, t: nat, choice: Choice)
    requires Known(s, t)
    ensures var th' := Action(s, t, s.threads[t], choice).0;
            th'.phase in {GrowLock, GrowCopy} ==> th'.oldHead < |s.nodes|
  {
    hide NodeAt, SkipAt, At, LinkUp, LinkNext, KeyOnce, NodeShape, SearchOk, TargetOk, ValidOk, OwnNode, HeldOk, LockOk,
         OldHead, FreshNode;
    PhasesAreOwn(s, t);
  }

  /** A step of a thread that is alone keeps it so, and leaves less to do. */
  lemma {:induction false} StepGoesOn(s: State, t: nat, choice: Choice)
    requires t < |s.threads| && Ready(s, t) && s.threads[t].phase != Done
    ensures var s' := Step(s, t, choice);
            t < |s'.threads| && Undisturbed(s', s'.threads[t]) && Due(s', s'.threads[t]) < Due(s, s.threads[t])
  {
    hide Inv, Known, Alone, Attended, Undisturbed, Due, Action, Step, Moved, Changed, Harmless;
    var (th', e) := Action(s, t, s.threads[t], choice);
    GoesOn(s, t, choice);
    StepMoves(s, t, choice);
    MovedIsChange(s, Step(s, t, choice), t, choice);
    SameThreads(s, t, choice);
    LooksHarmless(s, t, choice);
    OldHeadInRange(s, t, choice);
    PathAfter(s, Step(s, t, choice), t, e, th');
    DueAfter(s, Step(s, t, choice), t, e, th');
  }

  // ---- Runs ----

  /** All the time from state b to state n, nobody but t has begun anything. */
  ghost predicate AloneIn(run: seq<State>, b: nat, n: nat, t: nat) {
    n < |run| && forall r: nat :: b <= r <= n ==> Alone(run[r], t)
  }

  /** Then every step is its own. */
  lemma {:induction false} OwnSteps(run: seq<State>, b: nat, n: nat, t: nat) returns (choice: Choice)
    requires Reachable(run) && AloneIn(run, b, n + 1, t) && b <= n
    ensures t < |run[n].threads| && run[n + 1] == Step(run[n], t, choice)
  {
    hide Inv, Init, Step, Action, Alone;
    assert Next(run[n], run[n + 1]);
    var u: nat, ch :| u < |run[n].threads| && run[n + 1] == Step(run[n], u, ch);
    SameThreads(run[n], u, ch);
    assert Alone(run[n], t) && Alone(run[n + 1], t);
    Mover(run[n], run[n + 1], t, u, ch);
    return ch;
  }

  lemma {:induction false} Mover(s: State, s': State, t: nat, u: nat, choice: Choice)
    requires Alone(s, t) && Alone(s', t) && u < |s.threads|
    requires s'.threads == s.threads[u := Action(s, u, s.threads[u], choice).0]
    ensures u == t
  {
    hide Action;
    if s.threads[u].phase == Done {
      Begins(s, u, choice);
      assert s'.threads[u].phase != Done;
    }
  }

  lemma {:induction false} Begins(s: State, u: nat, choice: Choice)
    requires u < |s.threads| && s.threads[u].phase == Done
    ensures Action(s, u, s.threads[u], choice).0.phase != Done
  {
  }

  lemma {:induction false} AloneIsUndisturbed(run: seq<State>, b: nat, n: nat, t: nat)
    requires Reachable(run) && AloneIn(run, b, n, t) && Running(run, b, n, t) && b < n
    ensures t < |run[n].threads| && Undisturbed(run[n], run[n].threads[t])
    ensures n - b + Due(run[n], run[n].threads[t]) <= 1 + StartCost(run[b])
    decreases n
  {
    hide Inv, Init, Step, Known, Action, Alone, Attended, Undisturbed, Due, StartCost;
    var choice := OwnSteps(run, b, n - 1, t);
    if n == b + 1 {
      StartIsUndisturbed(run, b, t, choice);
    } else {
      AloneIsUndisturbed(run, b, n - 1, t);
      RunKeepsInv(run, n - 1);
      RunIsAttended(run, n - 1);
      InvKnown(run[n - 1], t);
      assert Alone(run[n - 1], t);
      StepGoesOn(run[n - 1], t, choice);
    }
  }

  function StartCost(s: State): nat {
    AfterSearch(s) + 3 + ListHeight(s) * (|s.nodes| + 1) + |s.nodes|
  }

  lemma {:induction false} StartIsUndisturbed(run: seq<State>, b: nat, t: nat, choice: Choice)
    requires b + 1 < |run| && t < |run[b].threads| && run[b].threads[t].phase == Done &&
             run[b + 1] == Step(run[b], t, choice)
    ensures t < |run[b + 1].threads| && Undisturbed(run[b + 1], run[b + 1].threads[t])
    ensures Due(run[b + 1], run[b + 1].threads[t]) == StartCost(run[b])
  {
    hide NodeAt;
    SameNodes(run[b], run[b + 1]);
  }

  /** An operation that nobody disturbs has ended after so many steps: eight times the height of the list, the height
      times its number of nodes, and some more. */
  lemma {:induction false} AloneEnds(run: seq<State>, b: nat, n: nat, t: nat)
    requires Reachable(run) && AloneIn(run, b, n, t) && Running(run, b, n, t) && b < n
    ensures n - b <= 9 * ListHeight(run[b]) + (ListHeight(run[b]) + 1) * |run[b].nodes| + 26
  {
    hide Reachable, Undisturbed, Running, Due, ListHeight, Alone;
    AloneIsUndisturbed(run, b, n, t);
    Expanded(ListHeight(run[b]), |run[b].nodes|);
  }

  lemma {:induction false} Expanded(h: nat, n: nat)
    ensures h * (n + 1) + n == (h + 1) * n + h
  {
  }

  // ---- Alone, the list is a set ----

  /** Which way the members may change while the thread is alone, and what it remembers of having changed them. */
  ghost predicate Tidy(s: State, s': State, th: Thread, th': Thread, key: int) {
    && th'.op == th.op && th'.data == th.data
    && (th.op == Add ==> (Member(s, key) ==> Member(s', key)))
    && (th.op == Remove ==> (Member(s', key) ==> Member(s, key)))
    && (Member(s, key) != Member(s', key) ==> key == th.data && if th.op == Add then HasAdded(th') else th'.isMarked)
    && (if th.op == Add then HasAdded(th) ==> HasAdded(th') else th.isMarked ==> th'.isMarked)
  }

  predicate HasAdded(th: Thread) {
    th.found == 0 && Finishing(th)
  }

  lemma {:induction false} MarkingRemembers(s: State, t: nat, th: Thread, choice: Choice)
    requires th.phase != Done && OwnPhases(th)
    ensures var th' := Action(s, t, th, choice).0;
            && th'.op == th.op && th'.data == th.data
            && (th.op == Remove && (th.isMarked || th.phase == MarkTarget) ==> th'.isMarked)
            && (th.op == Add && th.found == 0 && (Finishing(th) || th.phase == SetLinked) ==> HasAdded(th'))
  {
    hide SearchAction, LockAction, ChangeAction, Searching, Locking, OwnPhases, HasAdded;
    if Searching(th.phase) { SearchRemembers(s, th, choice); }
    else if Locking(th.phase) { LockRemembers(s, t, th); }
    else { ChangeRemembers(s, t, th, choice); }
  }

  ghost predicate Remembers(th: Thread, th': Thread) {
    && th'.op == th.op && th'.data == th.data
    && (th.op == Remove && (th.isMarked || th.phase == MarkTarget) ==> th'.isMarked)
    && (th.op == Add && th.found == 0 && (Finishing(th) || th.phase == SetLinked) ==> HasAdded(th'))
  }

  lemma {:induction false} SearchRemembers(s: State, th: Thread, choice: Choice)
    requires Searching(th.phase)
    ensures Remembers(th, SearchAction(s, th, choice).0)
  {
    hide NodeAt, SkipAt, At, Update;
  }

  lemma {:induction false} LockRemembers(s: State, t: nat, th: Thread)
    requires Locking(th.phase) && OwnPhases(th)
    ensures Remembers(th, LockAction(s, t, th).0)
  {
    hide NodeAt, SkipAt, At;
  }

  lemma {:induction false} ChangeRemembers(s: State, t: nat, th: Thread, choice: Choice)
    requires !Searching(th.phase) && !Locking(th.phase) && th.phase != Done
    ensures Remembers(th, ChangeAction(s, t, th, choice).0)
  {
    hide NodeAt, SkipAt, At, FreshNode;
  }

  /** One step. */
  lemma {:induction false} StepIsTidy(run: seq<State>, n: nat, t: nat, choice: Choice, key: int)
    requires Reachable(run) && Takes(run, n, t, choice) && Known(run[n], t) && run[n].threads[t].phase != Done
    ensures t < |run[n + 1].threads| && Tidy(run[n], run[n + 1], run[n].threads[t], run[n + 1].threads[t], key)
  {
    hide Reachable, Known, Step, Member, Action, HasAdded, Finishing, NodeAt;
    var th := run[n].threads[t];
    PhasesAreOwn(run[n], t);
    LinksNew(run[n], t);
    SameThreads(run[n], t, choice);
    MembersAreAtomic(run, n, t, choice, key);
    MarkingRemembers(run[n], t, th, choice);
    AddedMeansFinishing(th);
  }

  lemma {:induction false} AddedMeansFinishing(th: Thread)
    ensures HasAdded(th) ==> th.found == 0 && Finishing(th)
  {
  }

  lemma {:induction false} LinksNew(s: State, t: nat)
    requires t < |s.threads| && Known(s, t)
    ensures s.threads[t].phase == SetLinked ==> s.threads[t].found == 0
  {
    hide NodeAt, SkipAt, LockOk, OldHead, Layers, SearchOk, TargetOk, ValidOk, GrowOk, HeldOk, At;
  }

  /** All steps of an operation that is alone, from state m on. */
  lemma {:induction false} RunIsTidy(run: seq<State>, b: nat, m: nat, n: nat, t: nat, key: int)
    requires Reachable(run) && AloneIn(run, b, n, t) && Running(run, b, n, t) && b < m <= n
    ensures t < |run[m].threads| && t < |run[n].threads|
    ensures Tidy(run[m], run[n], run[m].threads[t], run[n].threads[t], key)
    decreases n
  {
    hide Reachable, Member, Known, Step, HasAdded, Inv, Alone;
    assert Alone(run[m], t) && Alone(run[n], t);
    InRangeAlone(run[m], t);
    InRangeAlone(run[n], t);
    if m < n {
      RunIsTidy(run, b, m, n - 1, t, key);
      var choice := OwnSteps(run, b, n - 1, t);
      RunKeepsInv(run, n - 1);
      InvKnown(run[n - 1], t);
      StepIsTidy(run, n - 1, t, choice, key);
    }
  }

  lemma {:induction false} InRangeAlone(s: State, t: nat)
    requires Alone(s, t)
    ensures t < |s.threads|
  {
  }

  /** Beginning an operation changes nothing. */
  lemma {:induction false} BeginIsTidy(run: seq<State>, b: nat, t: nat, key: int)
    requires Reachable(run) && AloneIn(run, b, b + 1, t) && run[b].threads[t].phase == Done
    ensures Member(run[b + 1], key) == Member(run[b], key)
  {
    hide Reachable, Member, Step, Alone;
    assert Alone(run[b], t);
    InRangeAlone(run[b], t);
    var choice := OwnSteps(run, b, b, t);
    MembersAreAtomic(run, b, t, choice, key);
  }

  /** Alone, the list behaves as a set: an add returns the node of its key exactly if the key was a member when it
      began, and otherwise makes it one; a remove returns true exactly if the key was a member, which it is not
      afterwards; the other members stay. */
  lemma {:induction false} AloneIsSet(run: seq<State>, b: nat, n: nat, t: nat, key: int)
    requires Reachable(run) && AloneIn(run, b, n, t) && Operation(run, b, n, t)
    ensures var th := run[n].threads[t];
            && (th.op == Add ==> (th.found > 0 <==> Member(run[b], th.data)) && Member(run[n], th.data))
            && (th.op == Remove ==> (th.isMarked <==> Member(run[b], th.data)) && !Member(run[n], th.data))
            && (key != th.data ==> Member(run[n], key) == Member(run[b], key))
  {
    hide Reachable, Member, Alone, Tidy, Discarding, Adding;
    var th := run[n].threads[t];
    BeginIsTidy(run, b, t, th.data);
    BeginIsTidy(run, b, t, key);
    OtherMembers(run, b, n, t, key);
    if th.op == Remove { RemoveAlone(run, b, n, t); } else { AddAlone(run, b, n, t); }
  }

  lemma {:induction false} OtherMembers(run: seq<State>, b: nat, n: nat, t: nat, key: int)
    requires Reachable(run) && AloneIn(run, b, n, t) && Operation(run, b, n, t)
    ensures key != run[n].threads[t].data ==> Member(run[n], key) == Member(run[b + 1], key)
  {
    hide Reachable, Member, Alone, HasAdded;
    RunIsTidy(run, b, b + 1, n, t, key);
  }

  lemma {:induction false} RemoveAlone(run: seq<State>, b: nat, n: nat, t: nat)
    requires Reachable(run) && AloneIn(run, b, n, t) && Operation(run, b, n, t) && run[n].threads[t].op == Remove
    ensures var th := run[n].threads[t]; (th.isMarked <==> Member(run[b + 1], th.data)) && !Member(run[n], th.data)
  {
    hide Reachable, Member, Alone, HasAdded, IsMember, InLayer, Unlinking, Discarding, NodeAt;
    var th := run[n].threads[t];
    RemoveIsJustified(run, b, n, t);
    RunIsTidy(run, b, b + 1, n, t, th.data);
    if th.isMarked {
      var m: nat, p: nat :| b < m < p < n && Discarding(run, m, t, th.target, th.data) && Unlinking(run, p, t, th.data);
      DiscardingEnds(run, m, t, th.target, th.data);
      RunIsTidy(run, b, b + 1, m, t, th.data);
      RunIsTidy(run, b, m, n, t, th.data);
      RunIsTidy(run, b, m + 1, n, t, th.data);
    } else {
      var m: nat :| b < m <= n && !Member(run[m], th.data);
      RunIsTidy(run, b, m, n, t, th.data);
    }
  }

  lemma {:induction false} DiscardingEnds(run: seq<State>, m: nat, t: nat, x: nat, key: int)
    requires Discarding(run, m, t, x, key)
    ensures Member(run[m], key) && !Member(run[m + 1], key)
  {
    hide Member, IsMember, TakesStep;
    SomeMember(run[m], x, key);
  }

  lemma {:induction false} SomeMember(s: State, x: nat, key: int)
    requires IsMember(s, x, key)
    ensures Member(s, key)
  {
    hide IsMember;
  }

  lemma {:induction false} AddAlone(run: seq<State>, b: nat, n: nat, t: nat)
    requires Reachable(run) && AloneIn(run, b, n, t) && Operation(run, b, n, t) && run[n].threads[t].op == Add
    ensures var th := run[n].threads[t]; (th.found > 0 <==> Member(run[b + 1], th.data)) && Member(run[n], th.data)
  {
    hide Reachable, Member, Alone, HasAdded, IsMember, InLayer, Linking, HeightDrawn, InAllLayers, Takes;
    var th := run[n].threads[t];
    AddIsJustified(run, b, n, t);
    RunIsTidy(run, b, b + 1, n, t, th.data);
    AddedMeansFinishing(th);
    if th.found > 0 {
      var m: nat :| b < m <= n && IsMember(run[m], th.foundNode, th.data);
      SomeMember(run[m], th.foundNode, th.data);
      RunIsTidy(run, b, m, n, t, th.data);
    } else {
      var p: nat, m: nat, x: nat :| b < p < m < n && Adding(run, b, p, m, n, t, x, th.data);
      SomeMember(run[m + 1], x, th.data);
      RunIsTidy(run, b, b + 1, m, t, th.data);
      RunIsTidy(run, b, m, n, t, th.data);
      RunIsTidy(run, b, m + 1, n, t, th.data);
    }
  }
}
