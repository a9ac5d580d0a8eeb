/** What a thread of the skip list knows after its own step. */
module SkipListSteps {
  import opened SkipList
  import opened SkipListLayers
  import opened SkipListThreads

  // ---- Steps that only read ----

  ghost predicate UnchangedMemory(s: State, s2: State) {
    && |s2.nodes| == |s.nodes| && s2.head == s.head
    && (forall x: nat :: NodeAt(s2, x) == NodeAt(s, x)) &&
        (forall x: nat, k: nat :: SkipAt(s2, x, k) == SkipAt(s, x, k))
  }

  lemma {:induction false} SameNodes(s: State, s2: State)
    requires s2.nodes == s.nodes && s2.head == s.head
    ensures UnchangedMemory(s, s2)
  {
  }

  lemma {:induction false} SamePathFrom(s: State, s2: State, th: Thread, lo: nat)
    requires UnchangedMemory(s, s2) && PathFrom(s, th, lo)
    ensures PathFrom(s2, th, lo)
  {
    hide NodeAt, SkipAt, At;
    assert forall l: nat :: PathAt(s2, th, l) == PathAt(s, th, l);
    assert forall x: nat, y: nat :: AtOrBelow(s2, x, y) == AtOrBelow(s, x, y);
  }

  lemma {:induction false} SameSearch(s: State, s2: State, th: Thread)
    requires UnchangedMemory(s, s2) && SearchOk(s, th)
    ensures SearchOk(s2, th)
  {
    hide NodeAt, SkipAt, At, PathFrom;
    if th.phase == ReadSkip { SamePathFrom(s, s2, th, th.layer + 1); }
    if Pathed(th.phase) { SamePathFrom(s, s2, th, 0); }
    assert forall x: nat, y: nat :: AtOrBelow(s2, x, y) == AtOrBelow(s, x, y);
  }

  lemma {:induction false} SameTarget(s: State, s2: State, t: nat, th: Thread)
    requires UnchangedMemory(s, s2) && TargetOk(s, t, th) && ValidOk(s, th)
    ensures TargetOk(s2, t, th) && ValidOk(s2, th)
  {
    hide NodeAt, SkipAt, At;
    assert forall j: nat :: Valid(s2, th, j) == Valid(s, th, j);
  }

  lemma {:induction false} SameOwn(s: State, s2: State, th: Thread)
    requires UnchangedMemory(s, s2) && OwnNode(s, th) && GrowOk(s, th)
    ensures OwnNode(s2, th) && GrowOk(s2, th)
  {
    hide NodeAt, SkipAt, At;
  }

  lemma {:induction false} SameHeld(s: State, s2: State, th: Thread)
    requires UnchangedMemory(s, s2) && HeldOk(s, th)
    ensures HeldOk(s2, th)
  {
    hide NodeAt, SkipAt, At;
  }

  /** The facts depend on the nodes and the head alone. */
  lemma {:induction false} SameFacts(s: State, s2: State, t: nat, th: Thread)
    requires UnchangedMemory(s, s2) && Facts(s, t, th)
    ensures Facts(s2, t, th)
  {
    hide SearchOk, TargetOk, ValidOk, OwnNode, GrowOk, HeldOk, UnchangedMemory;
    SameSearch(s, s2, th);
    SameTarget(s, s2, t, th);
    SameOwn(s, s2, th);
    SameHeld(s, s2, th);
  }

  /** The part of a thread that the facts about its search are about. */
  predicate SamePath(a: Thread, b: Thread) {
    a.preds == b.preds && a.succs == b.succs && a.top == b.top && a.data == b.data && a.found == b.found &&
        a.foundNode == b.foundNode
  }

  lemma {:induction false} PathSame(s: State, a: Thread, b: Thread, lo: nat)
    requires SamePath(a, b) && PathFrom(s, a, lo) && FoundOk(s, a)
    ensures PathFrom(s, b, lo) && FoundOk(s, b)
  {
    hide NodeAt, EverLinked, AtOrBelow, At, BelowKey;
    assert forall l: nat :: PathAt(s, b, l) == PathAt(s, a, l);
  }

  lemma {:induction false} BeginFacts(s: State, t: nat, choice: Choice)
    ensures Facts(s, t, Begin(choice))
  {
    hide NodeAt, SkipAt;
  }

  lemma {:induction false} LoadHeightFacts(s: State, t: nat, th: Thread, choice: Choice)
    requires Layers(s) && Facts(s, t, th) && th.phase == LoadHeight
    ensures Facts(s, t, SearchAction(s, th, choice).0)
  {
    hide SkipAt, NodeAt, LinkUp, LinkNext, KeyOnce, PathFrom, FoundOk, Descending;
    NilIsNoHead(s);
    assert NodeShape(s, th.target);
  }

  lemma {:induction false} LoadHeadFacts(s: State, t: nat, th: Thread, choice: Choice)
    requires Layers(s) && Facts(s, t, th) && th.phase == LoadHead
    ensures Facts(s, t, SearchAction(s, th, choice).0)
  {
    hide SkipAt, NodeAt, LinkUp, LinkNext, KeyOnce, Descending;
    assert NodeShape(s, s.head);
  }

  lemma {:induction false} AtOrBelowTrans(s: State, x: nat, y: nat, z: nat)
    requires AtOrBelow(s, x, y) && AtOrBelow(s, y, z)
    ensures AtOrBelow(s, x, z)
  {
    hide NodeAt;
  }

  lemma {:induction false} MoveRight(s: State, th: Thread)
    requires Layers(s) && SearchOk(s, th) && th.phase == ReadSkip && SkipAt(s, th.pred, th.layer) != NIL
    requires NodeAt(s, SkipAt(s, th.pred, th.layer)).key < th.data
    ensures SearchOk(s, SearchStep(s, th))
  {
    hide SkipAt, NodeAt, LinkNext, KeyOnce, NodeShape, EverLinked, AtOrBelow, PathFrom, FoundOk, At;
    var node := SkipAt(s, th.pred, th.layer);
    var th' := th.(pred := node);
    assert LinkUp(s, th.pred, th.layer);
    PathSame(s, th, th', th.layer + 1);
    AtOrBelowNext(s, th.pred, node);
    forall l: nat | th.layer < l <= th.top
      ensures AtOrBelow(s, At(th.preds, l), node)
    {
      AtOrBelowTrans(s, At(th.preds, l), th.pred, node);
    }
  }

  lemma {:induction false} AtOrBelowNext(s: State, x: nat, y: nat)
    requires Below(s, x, y)
    ensures AtOrBelow(s, x, y)
  {
    hide NodeAt;
  }

  /** What a layer leaves behind when the search goes below it. */
  ghost predicate LayerDone(s: State, th: Thread, th1: Thread) {
    && th1.top == th.top && th1.data == th.data && th1.pred == th.pred && th1.phase == th.phase
    && PathFrom(s, th1, th.layer) && FoundOk(s, th1) && (th1.found > 0 ==> th1.found > th.layer)
  }

  lemma {:induction false} DownSucc(s: State, th: Thread)
    requires Layers(s) && SearchOk(s, th) && th.phase == ReadSkip
    requires var node := SkipAt(s, th.pred, th.layer); !(node != NIL && NodeAt(s, node).key < th.data)
    ensures var th1 := SearchStep(s, th);
            PathAt(s, th1, th.layer) && FoundOk(s, th1) && (th1.found > 0 ==> th1.found > th.layer)
  {
    hide SkipAt, NodeAt, LinkNext, KeyOnce, NodeShape, PathFrom;
    assert LinkUp(s, th.pred, th.layer);
    PathLengths(s, th, th.layer + 1);
  }

  lemma {:induction false} PathLengths(s: State, th: Thread, lo: nat)
    requires PathFrom(s, th, lo)
    ensures |th.preds| == th.top + 1 && |th.succs| == th.top + 1
  {
    hide PathAt, AtOrBelow;
  }

  lemma {:induction false} UpperLayers(s: State, th: Thread, l: nat)
    requires SearchOk(s, th) && th.phase == ReadSkip && th.layer < l <= th.top
    ensures PathAt(s, SearchStep(s, th), l)
  {
    hide SkipAt, NodeAt, EverLinked, AtOrBelow;
    assert PathAt(s, th, l);
  }

  lemma {:induction false} DownFields(s: State, th: Thread)
    requires var node := SkipAt(s, th.pred, th.layer); !(node != NIL && NodeAt(s, node).key < th.data)
    requires |th.preds| == th.top + 1 && |th.succs| == th.top + 1 && th.layer <= th.top
    ensures var th1 := SearchStep(s, th);
            && th1.top == th.top && th1.data == th.data && th1.pred == th.pred && th1.phase == th.phase
            && |th1.preds| == th.top + 1 && |th1.succs| == th.top + 1 && th1.preds == th.preds[th.layer := th.pred]
            && th1.layer == (if th.layer > 0 then th.layer - 1 else 0)
  {
    hide SkipAt, NodeAt;
  }

  lemma {:induction false} DownOrder(s: State, th: Thread, l: nat, m: nat)
    requires SearchOk(s, th) && th.phase == ReadSkip && th.layer <= l < m <= th.top
    ensures var preds := Update(th.preds, th.layer, th.pred); AtOrBelow(s, At(preds, m), At(preds, l))
  {
    hide SkipAt, NodeAt, AtOrBelow, PathAt, FoundOk, EverLinked, BelowKey;
    PathLengths(s, th, th.layer + 1);
    assert At(Update(th.preds, th.layer, th.pred), m) == At(th.preds, m);
    if l > th.layer { assert At(Update(th.preds, th.layer, th.pred), l) == At(th.preds, l); }
  }

  lemma {:induction false} DownPath(s: State, th: Thread)
    requires Layers(s) && SearchOk(s, th) && th.phase == ReadSkip
    requires var node := SkipAt(s, th.pred, th.layer); !(node != NIL && NodeAt(s, node).key < th.data)
    ensures LayerDone(s, th, SearchStep(s, th))
  {
    hide SkipAt, NodeAt, Layers, EverLinked, AtOrBelow, PathAt, FoundOk, SearchStep, At, BelowKey;
    var th1 := SearchStep(s, th);
    DownSucc(s, th);
    PathLengths(s, th, th.layer + 1);
    DownFields(s, th);
    forall l: nat | th.layer <= l <= th.top
      ensures PathAt(s, th1, l)
    {
      if l > th.layer { UpperLayers(s, th, l); }
    }
    forall l: nat, m: nat | th.layer <= l < m <= th.top
      ensures AtOrBelow(s, At(th1.preds, m), At(th1.preds, l))
    {
      DownOrder(s, th, l, m);
    }
  }

  lemma {:induction false} CursorBelow(s: State, th: Thread, l: nat)
    requires SearchOk(s, th) && th.phase == ReadSkip && th.layer <= l <= th.top
    ensures AtOrBelow(s, At(Update(th.preds, th.layer, th.pred), l), th.pred)
  {
    hide SkipAt, NodeAt, PathAt, FoundOk, EverLinked, BelowKey;
    PathLengths(s, th, th.layer + 1);
    if l > th.layer { assert At(Update(th.preds, th.layer, th.pred), l) == At(th.preds, l); }
  }

  lemma {:induction false} MoveDown(s: State, th: Thread)
    requires Layers(s) && SearchOk(s, th) && th.phase == ReadSkip && th.layer > 0
    requires var node := SkipAt(s, th.pred, th.layer); !(node != NIL && NodeAt(s, node).key < th.data)
    ensures SearchOk(s, SearchStep(s, th))
  {
    hide SkipAt, NodeAt, Layers, PathFrom, FoundOk, BelowKey, AtOrBelow, At, SearchStep;
    DownPath(s, th);
    PathLengths(s, th, th.layer + 1);
    DownFields(s, th);
    forall l: nat | th.layer <= l <= th.top
      ensures AtOrBelow(s, At(SearchStep(s, th).preds, l), th.pred)
    {
      CursorBelow(s, th, l);
    }
  }

  /** The search is over. */
  lemma {:induction false} SearchedFacts(s: State, t: nat, th: Thread, choice: Choice)
    requires Layers(s) && Facts(s, t, th) && th.phase == ReadSkip && th.layer == 0
    requires var node := SkipAt(s, th.pred, 0); !(node != NIL && NodeAt(s, node).key < th.data)
    ensures Facts(s, t, Searched(SearchStep(s, th), choice))
  {
    hide SkipAt, NodeAt, Layers, SearchStep, PathFrom, FoundOk, SearchOk, Descending, Facts, Begin;
    SearchPart(s, t, th);
    var th1 := SearchStep(s, th);
    DownPath(s, th);
    StepKeeps(s, th);
    var th2 := Searched(th1, choice);
    SearchedSame(th1, choice);
    PathSame(s, th1, th2, 0);
    SearchedKinds(s, t, th, th1, choice);
  }

  lemma {:induction false} SearchPart(s: State, t: nat, th: Thread)
    requires Facts(s, t, th)
    ensures SearchOk(s, th)
  {
    hide SearchOk, TargetOk, ValidOk, OwnNode, GrowOk, HeldOk;
  }

  /** The search changes nothing else. */
  lemma {:induction false} StepKeeps(s: State, th: Thread)
    ensures var th1 := SearchStep(s, th);
            th1 == th.(pred := th1.pred, found := th1.found, foundNode := th1.foundNode, preds := th1.preds,
                       succs := th1.succs, layer := th1.layer)
  {
    hide SkipAt, NodeAt;
  }

  lemma {:induction false} SearchedSame(th: Thread, choice: Choice)
    ensures var th2 := Searched(th, choice);
            && SamePath(th, th2) && th2.held == th.held && th2.isMarked == th.isMarked && th2.op == th.op &&
                th2.target == th.target
  {
  }

  predicate Growing(phase: Phase) {
    phase in {GrowHeight, GrowLoad, GrowLock, GrowCopy, GrowCas, GrowMark}
  }

  predicate Relying(phase: Phase) {
    Checking(phase) || phase in {CreateNode, SetOwn, SetPred, ReadTarget, UnlinkPred}
  }

  lemma {:induction false} NoOwn(s: State, th: Thread)
    requires !Creating(th)
    ensures OwnNode(s, th)
  {
    hide NodeAt, SkipAt;
  }

  lemma {:induction false} NoGrow(s: State, th: Thread)
    requires !Growing(th.phase)
    ensures GrowOk(s, th)
  {
    hide NodeAt, SkipAt;
  }

  lemma {:induction false} NoValid(s: State, th: Thread)
    requires !Relying(th.phase)
    ensures ValidOk(s, th)
  {
    hide NodeAt, SkipAt, Valid;
  }

  lemma {:induction false} SearchedSearch(s: State, t: nat, th: Thread, th1: Thread, choice: Choice)
    requires Facts(s, t, th) && th.phase == ReadSkip
    requires th1 == th.(pred := th1.pred, found := th1.found, foundNode := th1.foundNode, preds := th1.preds,
                        succs := th1.succs, layer := th1.layer)
    requires PathFrom(s, Searched(th1, choice), 0) && FoundOk(s, Searched(th1, choice))
    ensures SearchOk(s, Searched(th1, choice)) && TargetOk(s, t, Searched(th1, choice))
  {
    hide SkipAt, NodeAt, PathFrom, FoundOk, Begin, OwnNode, GrowOk, ValidOk, HeldOk;
  }

  lemma {:induction false} SearchedHeld(s: State, t: nat, th: Thread, th1: Thread, choice: Choice)
    requires Facts(s, t, th) && th.phase == ReadSkip
    requires th1 == th.(pred := th1.pred, found := th1.found, foundNode := th1.foundNode, preds := th1.preds,
                        succs := th1.succs, layer := th1.layer)
    ensures HeldOk(s, Searched(th1, choice))
  {
    hide SkipAt, NodeAt, SearchOk, Begin, OwnNode, GrowOk, ValidOk, Descending, HeldAs;
  }

  lemma {:induction false} SearchedValid(s: State, t: nat, th: Thread, th1: Thread, choice: Choice)
    requires Facts(s, t, th) && th.phase == ReadSkip
    requires th1 == th.(pred := th1.pred, found := th1.found, foundNode := th1.foundNode, preds := th1.preds,
                        succs := th1.succs, layer := th1.layer)
    ensures ValidOk(s, Searched(th1, choice))
  {
    hide SkipAt, NodeAt, SearchOk, Begin, OwnNode, GrowOk, HeldOk, Valid;
  }

  lemma {:induction false} SearchedKinds(s: State, t: nat, th: Thread, th1: Thread, choice: Choice)
    requires Facts(s, t, th) && th.phase == ReadSkip
    requires th1 == th.(pred := th1.pred, found := th1.found, foundNode := th1.foundNode, preds := th1.preds,
                        succs := th1.succs, layer := th1.layer)
    requires PathFrom(s, Searched(th1, choice), 0) && FoundOk(s, Searched(th1, choice))
    ensures Facts(s, t, Searched(th1, choice))
  {
    hide SkipAt, NodeAt, PathFrom, FoundOk, SearchOk, TargetOk, ValidOk, OwnNode, GrowOk, HeldOk;
    SearchedSearch(s, t, th, th1, choice);
    SearchedHeld(s, t, th, th1, choice);
    SearchedValid(s, t, th, th1, choice);
    NoOwn(s, Searched(th1, choice));
    NoGrow(s, Searched(th1, choice));
  }

  lemma {:induction false} ReadSkipFacts(s: State, t: nat, th: Thread, choice: Choice)
    requires Layers(s) && Facts(s, t, th) && th.phase == ReadSkip
    ensures Facts(s, t, SearchAction(s, th, choice).0)
  {
    hide SkipAt, NodeAt, Layers, SearchStep, Facts, Searched, SearchOk;
    SearchPart(s, t, th);
    LayerInRange(s, th);
    var node := SkipAt(s, th.pred, th.layer);
    if node != NIL && NodeAt(s, node).key < th.data {
      MoveRight(s, th);
      SearchOn(s, t, th);
    } else if th.layer > 0 {
      MoveDown(s, th);
      SearchOn(s, t, th);
    } else {
      SearchedFacts(s, t, th, choice);
    }
  }

  lemma {:induction false} LayerInRange(s: State, th: Thread)
    requires SearchOk(s, th) && th.phase == ReadSkip
    ensures th.layer <= th.top
  {
  }

  lemma {:induction false} SearchOn(s: State, t: nat, th: Thread)
    requires Facts(s, t, th) && th.phase == ReadSkip && SearchOk(s, SearchStep(s, th))
    ensures Facts(s, t, SearchStep(s, th))
  {
    hide SkipAt, NodeAt, SearchStep, SearchOk, Descending;
    StepKeeps(s, th);
  }

  lemma {:induction false} CheckFoundSearch(s: State, t: nat, th: Thread, choice: Choice)
    requires Layers(s) && Facts(s, t, th) &&
             th.phase in {AddCheckMarked, AddWaitLinked, RemoveCheckLinked, RemoveCheckMarked}
    ensures SearchOk(s, SearchAction(s, th, choice).0)
  {
    hide SkipAt, NodeAt, Layers, PathFrom, FoundOk, TargetOk, ValidOk, OwnNode, GrowOk, HeldOk;
    PathSame(s, th, SearchAction(s, th, choice).0, 0);
  }

  lemma {:induction false} CheckFoundTarget(s: State, t: nat, th: Thread, choice: Choice)
    requires Layers(s) && Facts(s, t, th) &&
             th.phase in {AddCheckMarked, AddWaitLinked, RemoveCheckLinked, RemoveCheckMarked}
    ensures TargetOk(s, t, SearchAction(s, th, choice).0)
  {
    hide SkipAt, NodeAt, Layers, PathFrom, ValidOk, OwnNode, GrowOk, HeldOk;
    if th.phase == RemoveCheckMarked { FoundIsNode(s, th); }
  }

  lemma {:induction false} CheckFoundFacts(s: State, t: nat, th: Thread, choice: Choice)
    requires Layers(s) && Facts(s, t, th) &&
             th.phase in {AddCheckMarked, AddWaitLinked, RemoveCheckLinked, RemoveCheckMarked}
    ensures Facts(s, t, SearchAction(s, th, choice).0)
  {
    hide SkipAt, NodeAt, Layers, SearchOk, TargetOk, ValidOk, OwnNode, GrowOk, Descending;
    var th' := SearchAction(s, th, choice).0;
    CheckFoundSearch(s, t, th, choice);
    CheckFoundTarget(s, t, th, choice);
    UnmarkedTarget(s, t, th);
    NoValid(s, th');
    NoOwn(s, th');
    NoGrow(s, th');
  }

  lemma {:induction false} UnmarkedTarget(s: State, t: nat, th: Thread)
    requires Facts(s, t, th) && th.phase in {AddCheckMarked, AddWaitLinked, RemoveCheckLinked, RemoveCheckMarked}
    ensures !th.isMarked
  {
    hide SkipAt, NodeAt, Layers, PathFrom, FoundOk, TargetOk, ValidOk, OwnNode, GrowOk, HeldOk;
  }

  lemma {:induction false} FoundIsNode(s: State, th: Thread)
    requires Layers(s) && FoundOk(s, th) && th.found > 0
    ensures NIL < th.foundNode < |s.nodes|
  {
    hide LinkUp, LinkNext, KeyOnce, SkipAt;
    assert NodeShape(s, th.foundNode) && NodeShape(s, NIL);
  }

  // ---- Steps that check under locks ----

  predicate AfterSearch(phase: Phase) {
    phase !in {LoadHead, ReadSkip, AddCheckMarked, AddWaitLinked, RemoveCheckLinked, RemoveCheckMarked}
  }

  /** Once the search is over its result is only carried along. */
  lemma {:induction false} SearchCarried(s: State, th: Thread, th': Thread)
    requires SearchOk(s, th) && SamePath(th, th') && AfterSearch(th'.phase) && (Pathed(th'.phase) ==> Pathed(th.phase))
    ensures SearchOk(s, th')
  {
    hide NodeAt, PathFrom, FoundOk;
    if Pathed(th'.phase) { PathSame(s, th, th', 0); }
  }

  lemma {:induction false} RecheckFacts(s: State, t: nat, th: Thread)
    requires Facts(s, t, th) && th.phase == RecheckMarked
    ensures Facts(s, t, LockAction(s, t, th).0)
  {
    hide NodeAt, SkipAt, SearchOk, ValidOk, OwnNode, GrowOk, Descending, Pathed;
    var th' := LockAction(s, t, th).0;
    CarriedOn(s, t, th);
    SearchCarried(s, th, th');
    NoValid(s, th');
    NoOwn(s, th');
    NoGrow(s, th');
  }

  lemma {:induction false} CarriedOn(s: State, t: nat, th: Thread)
    requires Locking(th.phase) || (Pathed(th.phase) && !Searching(th.phase))
    requires th.phase != Release
    ensures var th' := LockAction(s, t, th).0;
            SamePath(th, th') && AfterSearch(th'.phase) && Pathed(th.phase)
  {
    hide NodeAt, SkipAt;
  }

  lemma {:induction false} RetryFacts(s: State, t: nat, th: Thread)
    requires Facts(s, t, th) && Checking(th.phase)
    ensures Facts(s, t, Retry(th))
  {
    hide NodeAt, SkipAt, SearchOk, ValidOk, OwnNode, GrowOk, Descending;
    var th' := Retry(th);
    SearchCarried(s, th, th');
    NoValid(s, th');
    NoOwn(s, th');
    NoGrow(s, th');
  }

  /** From one check to the next at the same layer. */
  lemma {:induction false} CheckOn(s: State, t: nat, th: Thread, phase: Phase)
    requires Facts(s, t, th) && Checking(th.phase) && phase in {CheckPred, CheckLink, CheckSucc} &&
             ValidOk(s, th.(phase := phase))
    ensures Facts(s, t, th.(phase := phase))
  {
    hide NodeAt, SkipAt, SearchOk, ValidOk, OwnNode, GrowOk, Descending, Pathed;
    var th' := th.(phase := phase);
    PhasesPathed(th.phase, phase);
    SearchCarried(s, th, th');
    HeldOn(s, th, th');
    NoOwn(s, th');
    NoGrow(s, th');
  }

  lemma {:induction false} PhasesPathed(a: Phase, b: Phase)
    requires Checking(a)
    ensures Pathed(a)
  {
  }

  lemma {:induction false} HeldOn(s: State, th: Thread, th': Thread)
    requires HeldOk(s, th) && Checking(th.phase) && Checking(th'.phase)
    requires th'.held == th.held && th'.preds == th.preds && th'.isMarked == th.isMarked && th'.target == th.target
    requires th.layer + (if th.phase == LockPred then 0 else 1) <= th'.layer + (if th'.phase == LockPred then 0 else 1)
    ensures HeldOk(s, th')
  {
    hide NodeAt, SkipAt, Descending;
    forall x | x in th'.held
      ensures (th'.isMarked && x == th'.target) || HeldAs(th', x)
    {
      assert (th.isMarked && x == th.target) || HeldAs(th, x);
    }
  }

  lemma {:induction false} NextLockHeld(s: State, t: nat, th: Thread)
    requires Facts(s, t, th) && (th.phase == CheckLink || th.phase == CheckSucc)
    ensures HeldOk(s, NextLock(th))
  {
    hide NodeAt, SkipAt, Descending, SearchOk, ValidOk, TargetOk, OwnNode, GrowOk, HeldAs;
    if th.layer + 1 < th.height { HeldOn(s, th, NextLock(th)); }
  }

  /** All layers up to this one have passed. */
  lemma {:induction false} PassedSoFar(s: State, th: Thread)
    requires ValidOk(s, th) && (th.phase == CheckLink || th.phase == CheckSucc) && Valid(s, th, th.layer)
    ensures th.layer < th.height <= th.top + 1 && (forall j: nat :: j <= th.layer ==> Valid(s, th, j))
    ensures if th.op == Add then th.found == 0 && !th.isMarked else th.isMarked
  {
    hide NodeAt, SkipAt, Valid;
  }

  lemma {:induction false} NextLockValid(s: State, t: nat, th: Thread)
    requires Facts(s, t, th) && (th.phase == CheckLink || th.phase == CheckSucc) && Valid(s, th, th.layer)
    requires th.phase == CheckLink ==> th.op == Remove
    ensures ValidOk(s, NextLock(th))
  {
    hide NodeAt, SkipAt, SearchOk, HeldOk, TargetOk, OwnNode, GrowOk, Valid, At;
    PassedSoFar(s, th);
    var th' := NextLock(th);
    SameValid(s, th, th');
    if th.layer + 1 < th.height {
    } else if th.op == Add {
    } else {
    }
  }

  lemma {:induction false} SameValid(s: State, a: Thread, b: Thread)
    requires a.preds == b.preds && a.succs == b.succs && a.held == b.held
    ensures forall j: nat :: Valid(s, b, j) == Valid(s, a, j)
  {
    hide NodeAt, SkipAt;
  }

  lemma {:induction false} NextLockTarget(s: State, t: nat, th: Thread)
    requires Facts(s, t, th) && (th.phase == CheckLink || th.phase == CheckSucc)
    requires th.phase == CheckLink ==> th.op == Remove
    ensures TargetOk(s, t, NextLock(th))
  {
    hide NodeAt, SkipAt, SearchOk, HeldOk, OwnNode, GrowOk, Valid;
  }

  lemma {:induction false} NextLockFacts(s: State, t: nat, th: Thread)
    requires Facts(s, t, th) && (th.phase == CheckLink || th.phase == CheckSucc) && Valid(s, th, th.layer)
    requires th.phase == CheckLink ==> th.op == Remove
    ensures Facts(s, t, NextLock(th))
  {
    hide NodeAt, SkipAt, SearchOk, HeldOk, TargetOk, ValidOk, OwnNode, GrowOk, Valid;
    NextLockHeld(s, t, th);
    NextLockValid(s, t, th);
    NextLockTarget(s, t, th);
    SearchCarried(s, th, NextLock(th));
    NoOwn(s, NextLock(th));
    NoGrow(s, NextLock(th));
  }

  /** The lock on this predecessor is already held, from the layer below. */
  lemma {:induction false} AgainFacts(s: State, t: nat, th: Thread)
    requires Facts(s, t, th) && th.phase == LockPred && th.layer > 0 &&
             At(th.preds, th.layer - 1) == At(th.preds, th.layer)
    ensures Facts(s, t, th.(phase := CheckPred))
  {
    hide NodeAt, SkipAt, At, SearchOk, HeldOk, TargetOk, OwnNode, GrowOk;
    assert Valid(s, th, th.layer - 1);
    assert forall j: nat :: Valid(s, th.(phase := CheckPred), j) == Valid(s, th, j);
    CheckOn(s, t, th, CheckPred);
  }

  lemma {:induction false} CheckPredFacts(s: State, t: nat, th: Thread)
    requires Facts(s, t, th) && th.phase == CheckPred && !NodeAt(s, At(th.preds, th.layer)).marked
    ensures Facts(s, t, th.(phase := CheckLink))
  {
    hide NodeAt, SkipAt, At, SearchOk, HeldOk, TargetOk, OwnNode, GrowOk;
    assert forall j: nat :: Valid(s, th.(phase := CheckLink), j) == Valid(s, th, j);
    CheckOn(s, t, th, CheckLink);
  }

  lemma {:induction false} CheckLinkFacts(s: State, t: nat, th: Thread)
    requires Facts(s, t, th) && th.phase == CheckLink &&
             SkipAt(s, At(th.preds, th.layer), th.layer) == At(th.succs, th.layer)
    ensures Facts(s, t, if th.op == Add then th.(phase := CheckSucc) else NextLock(th))
  {
    hide NodeAt, SkipAt, At, SearchOk, HeldOk, TargetOk, OwnNode, GrowOk, NextLock;
    if th.op == Add {
      assert forall j: nat :: Valid(s, th.(phase := CheckSucc), j) == Valid(s, th, j);
      CheckOn(s, t, th, CheckSucc);
    } else {
      NextLockFacts(s, t, th);
    }
  }

  lemma {:induction false} CheckSuccFacts(s: State, t: nat, th: Thread)
    requires Facts(s, t, th) && th.phase == CheckSucc
    ensures Facts(s, t, NextLock(th))
  {
    hide NodeAt, SkipAt, At, SearchOk, HeldOk, TargetOk, OwnNode, GrowOk, NextLock;
    NextLockFacts(s, t, th);
  }

  lemma {:induction false} ReleasedFacts(s: State, t: nat, th: Thread)
    requires Facts(s, t, th) && th.phase == Release && |th.held| <= th.keep
    ensures Facts(s, t, th.(phase := th.next))
  {
    hide NodeAt, SkipAt, Descending, ValidOk, SearchOk, OwnNode, GrowOk;
    var th' := th.(phase := th.next);
    ReleasedTo(s, th);
    SearchCarried(s, th, th');
    NoValid(s, th');
    NoOwn(s, th');
    ReleasedGrow(s, th);
  }

  lemma {:induction false} ReleasedTo(s: State, th: Thread)
    requires HeldOk(s, th) && th.phase == Release
    ensures !Relying(th.next) && !Creating(th.(phase := th.next)) && !Pathed(th.next) && AfterSearch(th.next)
  {
    hide NodeAt, SkipAt, Descending;
  }

  lemma {:induction false} ReleasedGrow(s: State, th: Thread)
    requires HeldOk(s, th) && th.phase == Release
    ensures GrowOk(s, th.(phase := th.next))
  {
    hide NodeAt, SkipAt, Descending;
  }
}
