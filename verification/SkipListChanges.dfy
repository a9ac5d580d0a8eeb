/** What a thread of the skip list knows after a step that changes the shared memory. */
module SkipListChanges {
  import opened Wrappers
  import opened SkipList
  import opened SkipListLayers
  import opened SkipListThreads
  import opened SkipListSteps

  /** The step of t at the given phase leads from s to s', and changes the memory by e and the thread to th'. */
  ghost predicate Own(s: State, s': State, t: nat, choice: Choice, e: Effect, th': Thread) {
    Known(s, t) && t < |s.threads| && Moved(s, s', t, choice) && Action(s, t, s.threads[t], choice) == (th', e)
  }

  lemma {:induction false} OwnChange(s: State, s': State, t: nat, choice: Choice, e: Effect, th': Thread)
    requires Own(s, s', t, choice, e, th')
    ensures Changed(s, s', t, e) && Facts(s, t, s.threads[t]) && LockOk(s, t) && View(s, s', t, e)
  {
    hide NodeAt, SkipAt, Action, Layers, Allowed, View, Facts, LockOk, OldHead;
  }

  /** The part of the facts that is about the search. */
  lemma {:induction false} OwnSearch(s: State, s': State, t: nat, choice: Choice, e: Effect, th': Thread)
    requires Own(s, s', t, choice, e, th') && SamePath(s.threads[t], th') && AfterSearch(th'.phase)
    requires Pathed(th'.phase) ==> Pathed(s.threads[t].phase)
    ensures SearchOk(s', th')
  {
    hide NodeAt, SkipAt, Action, Layers, Moved, SearchOk, TargetOk, ValidOk, OwnNode, GrowOk, HeldOk, LockOk, OldHead,
         SamePath;
    SearchKept(s, s', t, choice, s.threads[t]);
    SearchCarried(s', s.threads[t], th');
  }

  lemma {:induction false} OwnDescending(s: State, s': State, t: nat, choice: Choice, e: Effect, th': Thread)
    requires Own(s, s', t, choice, e, th')
    ensures Descending(s', s.threads[t].held)
  {
    hide NodeAt, SkipAt, Action, Layers, Moved, SearchOk, TargetOk, ValidOk, OwnNode, GrowOk, LockOk, OldHead,
         Descending;
    DescendingKept(s, s', t, choice, t, s.threads[t].held);
  }

  lemma {:induction false} OwnComplete(s: State, s': State, t: nat, choice: Choice, e: Effect, th': Thread)
    requires Own(s, s', t, choice, e, th') && Complete(s, s.threads[t])
    ensures Complete(s', s.threads[t])
  {
    hide NodeAt, SkipAt, Action, Layers, Moved, Facts, LockOk, OldHead;
    CompleteKept(s, s', t, choice, s.threads[t]);
  }

  lemma {:induction false} TakeTargetFacts(s: State, s': State, t: nat, choice: Choice, e: Effect, th': Thread)
    requires Own(s, s', t, choice, e, th') && s.threads[t].phase == LockTarget && e.TakeLock?
    ensures Facts(s', t, th')
  {
    hide NodeAt, SkipAt, Known, Moved, SearchOk, ValidOk, OwnNode, GrowOk, LockOk;
    OwnChange(s, s', t, choice, e, th');
    OwnSearch(s, s', t, choice, e, th');
    OwnComplete(s, s', t, choice, e, th');
    NoValid(s', th');
    NoOwn(s', th');
    NoGrow(s', th');
  }

  lemma {:induction false} MarkedTarget(s: State, s': State, t: nat, choice: Choice, e: Effect, th': Thread)
    requires Own(s, s', t, choice, e, th') && s.threads[t].phase == MarkTarget
    ensures TargetOk(s', t, th') && ValidOk(s', th')
  {
    hide NodeAt, SkipAt, Known, Moved, SearchOk, OwnNode, GrowOk, HeldOk, LockOk, LinkUp, LinkNext, KeyOnce, Allowed;
    OwnChange(s, s', t, choice, e, th');
    OwnComplete(s, s', t, choice, e, th');
    assert NodeShape(s, s.threads[t].target);
  }

  lemma {:induction false} MarkFacts(s: State, s': State, t: nat, choice: Choice, e: Effect, th': Thread)
    requires Own(s, s', t, choice, e, th') && s.threads[t].phase == MarkTarget
    ensures Facts(s', t, th')
  {
    hide NodeAt, SkipAt, Known, Moved, SearchOk, TargetOk, ValidOk, OwnNode, GrowOk, LockOk, Changed, View;
    OwnChange(s, s', t, choice, e, th');
    OwnSearch(s, s', t, choice, e, th');
    MarkedTarget(s, s', t, choice, e, th');
    NoOwn(s', th');
    NoGrow(s', th');
  }

  // ---- Taking the lock of a predecessor ----

  /** The node to lock is below everything the thread holds. */
  lemma {:induction false} WantedIsBelow(s: State, t: nat, x: nat)
    requires Known(s, t) && t < |s.threads| && s.threads[t].phase == LockPred && x in s.threads[t].held
    requires var p := At(s.threads[t].preds, s.threads[t].layer); NodeAt(s, p).lock != Some(t)
    ensures Below(s, At(s.threads[t].preds, s.threads[t].layer), x)
  {
    hide NodeAt, SkipAt, Layers, OwnNode, GrowOk, OldHead, At, Descending, FoundOk;
    var th := s.threads[t];
    var p := At(th.preds, th.layer);
    assert PathAt(s, th, th.layer);
    if th.isMarked && x == th.target {
      TargetAbove(s, th, p);
    } else {
      var j: nat :| j < th.layer && x == At(th.preds, j);
      assert AtOrBelow(s, p, x);
    }
  }

  lemma {:induction false} TargetAbove(s: State, th: Thread, p: nat)
    requires TargetOk(s, 0, th) && th.isMarked && th.phase == LockPred && BelowKey(s, p, th.data)
    ensures Below(s, p, th.target)
  {
    hide NodeAt, SkipAt;
  }

  lemma {:induction false} DescendingPlus(s: State, held: seq<nat>, x: nat)
    requires Descending(s, held) && forall y :: y in held ==> Below(s, x, y)
    ensures Descending(s, held + [x])
  {
    hide NodeAt, Below;
  }

  lemma {:induction false} BelowAfter(s: State, s': State, t: nat, choice: Choice, e: Effect, th': Thread)
    requires Own(s, s', t, choice, e, th') && s.threads[t].phase == LockPred && e.TakeLock?
    ensures forall x :: x in s.threads[t].held ==> Below(s', e.x, x)
  {
    hide NodeAt, SkipAt, Layers, Moved, Facts, OldHead, LockOk, Below;
    PredInRange(s, t);
    forall x | x in s.threads[t].held
      ensures Below(s', e.x, x)
    {
      WantedIsBelow(s, t, x);
      HeldRange(s, t, x);
      OrderKept(s, s', t, choice, e.x, x);
    }
  }

  lemma {:induction false} HeldRange(s: State, t: nat, x: nat)
    requires LockOk(s, t) && x in s.threads[t].held
    ensures x < |s.nodes|
  {
  }

  lemma {:induction false} TakePredHeld(s: State, s': State, t: nat, choice: Choice, e: Effect, th': Thread)
    requires Own(s, s', t, choice, e, th') && s.threads[t].phase == LockPred && e.TakeLock?
    ensures HeldOk(s', th')
  {
    hide NodeAt, SkipAt, Known, Moved, TargetOk, ValidOk, SearchOk, OwnNode, GrowOk, LockOk, Layers, Descending,
         Changed, View, At;
    OwnChange(s, s', t, choice, e, th');
    OwnDescending(s, s', t, choice, e, th');
    BelowAfter(s, s', t, choice, e, th');
    DescendingPlus(s', s.threads[t].held, e.x);
    var th := s.threads[t];
    forall x | x in th'.held
      ensures (th'.isMarked && x == th'.target) || HeldAs(th', x)
    {
      if x in th.held { assert (th.isMarked && x == th.target) || HeldAs(th, x); }
      else { assert x == At(th'.preds, th'.layer); }
    }
  }

  lemma {:induction false} TakePredValid(s: State, s': State, t: nat, choice: Choice, e: Effect, th': Thread)
    requires Own(s, s', t, choice, e, th') && s.threads[t].phase == LockPred && e.TakeLock?
    ensures ValidOk(s', th') && TargetOk(s', t, th')
  {
    hide NodeAt, SkipAt, Known, Moved, HeldOk, SearchOk, OwnNode, GrowOk, LockOk, Layers, Allowed, At;
    OwnChange(s, s', t, choice, e, th');
    var th := s.threads[t];
    assert forall j: nat :: Valid(s, th, j) ==> Valid(s', th', j);
  }

  lemma {:induction false} TakePredFacts(s: State, s': State, t: nat, choice: Choice, e: Effect, th': Thread)
    requires Own(s, s', t, choice, e, th') && s.threads[t].phase == LockPred && e.TakeLock?
    ensures Facts(s', t, th')
  {
    hide NodeAt, SkipAt, Known, Moved, SearchOk, TargetOk, ValidOk, HeldOk, OwnNode, GrowOk, LockOk, Changed, View;
    OwnSearch(s, s', t, choice, e, th');
    TakePredHeld(s, s', t, choice, e, th');
    TakePredValid(s, s', t, choice, e, th');
    NoOwn(s', th');
    NoGrow(s', th');
  }

  // ---- Releasing ----

  lemma {:induction false} DropFacts(s: State, s': State, t: nat, choice: Choice, e: Effect, th': Thread)
    requires Own(s, s', t, choice, e, th') && s.threads[t].phase == Release && e.DropLock?
    ensures Facts(s', t, th')
  {
    hide NodeAt, SkipAt, Known, Moved, SearchOk, TargetOk, HeldOk, ValidOk, OwnNode, GrowOk, LockOk, Changed, View;
    OwnSearch(s, s', t, choice, e, th');
    DropHeld(s, s', t, choice, e, th');
    DropTarget(s, s', t, choice, e, th');
    NoValid(s', th');
    NoOwn(s', th');
    NoGrow(s', th');
  }

  lemma {:induction false} DropHeld(s: State, s': State, t: nat, choice: Choice, e: Effect, th': Thread)
    requires Own(s, s', t, choice, e, th') && s.threads[t].phase == Release && e.DropLock?
    ensures HeldOk(s', th')
  {
    hide NodeAt, SkipAt, Known, Moved, SearchOk, TargetOk, ValidOk, OwnNode, GrowOk, LockOk, Changed, View, Descending;
    OwnChange(s, s', t, choice, e, th');
    OwnDescending(s, s', t, choice, e, th');
    PrefixDescends(s', s.threads[t].held, |s.threads[t].held| - 1);
  }

  lemma {:induction false} PrefixDescends(s: State, held: seq<nat>, n: nat)
    requires Descending(s, held) && n <= |held|
    ensures Descending(s, held[..n])
  {
    hide Below;
  }

  lemma {:induction false} DropTarget(s: State, s': State, t: nat, choice: Choice, e: Effect, th': Thread)
    requires Own(s, s', t, choice, e, th') && s.threads[t].phase == Release && e.DropLock?
    ensures TargetOk(s', t, th')
  {
    hide NodeAt, SkipAt, Known, Moved, SearchOk, HeldOk, ValidOk, OwnNode, GrowOk, LockOk, Layers, Allowed;
    OwnChange(s, s', t, choice, e, th');
  }

  // ---- Adding ----

  /** The checked layers stay as they are when another node is changed. */
  lemma {:induction false} ValidStays(s: State, s': State, t: nat, e: Effect, a: Thread, b: Thread, j: nat)
    requires View(s, s', t, e) && Valid(s, a, j) && a.preds == b.preds && a.succs == b.succs && a.held == b.held
    requires At(a.preds, j) < |s.nodes| && (e.SetMarked? ==> e.x != At(a.preds, j))
    requires e.SetOwnSkip? || e.Link? || e.Unlink? ==> e.x != At(a.preds, j) || e.k != j
    ensures Valid(s', b, j)
  {
    hide NodeAt, SkipAt, At;
  }

  lemma {:induction false} CreateFacts(s: State, s': State, t: nat, choice: Choice, e: Effect, th': Thread)
    requires Own(s, s', t, choice, e, th') && s.threads[t].phase == CreateNode
    ensures Facts(s', t, th')
  {
    hide NodeAt, SkipAt, Known, Moved, SearchOk, TargetOk, ValidOk, OwnNode, GrowOk, HeldOk, LockOk, Changed, View;
    OwnSearch(s, s', t, choice, e, th');
    CreateValid(s, s', t, choice, e, th');
    CreateOwn(s, s', t, choice, e, th');
    CreateHeld(s, s', t, choice, e, th');
    NoGrow(s', th');
  }

  lemma {:induction false} CreateValid(s: State, s': State, t: nat, choice: Choice, e: Effect, th': Thread)
    requires Own(s, s', t, choice, e, th') && s.threads[t].phase == CreateNode
    ensures ValidOk(s', th')
  {
    hide NodeAt, SkipAt, Known, Moved, SearchOk, TargetOk, OwnNode, GrowOk, HeldOk, Changed, View, At, Descending;
    OwnChange(s, s', t, choice, e, th');
    forall j: nat | j < th'.height
      ensures Valid(s', th', j)
    {
      assert Valid(s, s.threads[t], j);
      HeldRange(s, t, At(s.threads[t].preds, j));
      ValidStays(s, s', t, e, s.threads[t], th', j);
    }
  }

  lemma {:induction false} CreateOwn(s: State, s': State, t: nat, choice: Choice, e: Effect, th': Thread)
    requires Own(s, s', t, choice, e, th') && s.threads[t].phase == CreateNode
    ensures OwnNode(s', th') && TargetOk(s', t, th')
  {
    hide NodeAt, SkipAt, Known, Moved, SearchOk, GrowOk, HeldOk, LockOk, LinkUp, LinkNext, KeyOnce, NodeShape, At,
         Valid;
    OwnChange(s, s', t, choice, e, th');
  }

  lemma {:induction false} CreateHeld(s: State, s': State, t: nat, choice: Choice, e: Effect, th': Thread)
    requires Own(s, s', t, choice, e, th') && s.threads[t].phase == CreateNode
    ensures HeldOk(s', th')
  {
    hide NodeAt, SkipAt, Known, Moved, SearchOk, GrowOk, OwnNode, TargetOk, LockOk, At, Valid, Descending, View,
         Changed;
    OwnChange(s, s', t, choice, e, th');
    OwnDescending(s, s', t, choice, e, th');
  }

  lemma {:induction false} SetOwnFacts(s: State, s': State, t: nat, choice: Choice, e: Effect, th': Thread)
    requires Own(s, s', t, choice, e, th') && s.threads[t].phase == SetOwn
    ensures Facts(s', t, th')
  {
    hide NodeAt, SkipAt, Known, Moved, SearchOk, TargetOk, ValidOk, OwnNode, GrowOk, HeldOk, LockOk, Changed, View;
    OwnSearch(s, s', t, choice, e, th');
    SetOwnValid(s, s', t, choice, e, th');
    SetOwnOwn(s, s', t, choice, e, th');
    AddingHeld(s, s', t, choice, e, th');
    NoGrow(s', th');
  }

  lemma {:induction false} OwnIsNotPred(s: State, t: nat, j: nat)
    requires Known(s, t) && t < |s.threads| && (s.threads[t].phase == SetOwn || s.threads[t].phase == SetPred)
    requires s.threads[t].layer <= j < s.threads[t].height
    ensures At(s.threads[t].preds, j) != s.threads[t].target && At(s.threads[t].preds, j) < |s.nodes| &&
            Valid(s, s.threads[t], j)
  {
    hide SkipAt, Layers, OldHead, HeldOk, LockOk, GrowOk, TargetOk, At;
    assert PathAt(s, s.threads[t], j);
    LinkedInRange(s, At(s.threads[t].preds, j));
  }

  lemma {:induction false} SetOwnValid(s: State, s': State, t: nat, choice: Choice, e: Effect, th': Thread)
    requires Own(s, s', t, choice, e, th') && s.threads[t].phase == SetOwn
    ensures ValidOk(s', th')
  {
    hide NodeAt, SkipAt, Known, Moved, SearchOk, TargetOk, OwnNode, GrowOk, HeldOk, Changed, View, At, Valid;
    OwnChange(s, s', t, choice, e, th');
    forall j: nat | th'.layer <= j < th'.height
      ensures Valid(s', th', j)
    {
      OwnIsNotPred(s, t, j);
      ValidStays(s, s', t, e, s.threads[t], th', j);
    }
  }

  lemma {:induction false} SetOwnOwn(s: State, s': State, t: nat, choice: Choice, e: Effect, th': Thread)
    requires Own(s, s', t, choice, e, th') && s.threads[t].phase == SetOwn
    ensures OwnNode(s', th') && TargetOk(s', t, th')
  {
    hide NodeAt, SkipAt, Known, Moved, SearchOk, GrowOk, HeldOk, LockOk, LinkUp, LinkNext, KeyOnce, At, Valid, Allowed;
    OwnChange(s, s', t, choice, e, th');
    assert NodeShape(s, s.threads[t].target);
  }

  lemma {:induction false} AddingHeld(s: State, s': State, t: nat, choice: Choice, e: Effect, th': Thread)
    requires Own(s, s', t, choice, e, th') &&
             (s.threads[t].phase == SetOwn || s.threads[t].phase == SetPred || s.threads[t].phase == SetLinked)
    ensures HeldOk(s', th')
  {
    hide NodeAt, SkipAt, Known, Moved, SearchOk, GrowOk, ValidOk, LockOk, At, Valid, Descending, View, Changed;
    OwnChange(s, s', t, choice, e, th');
    OwnDescending(s, s', t, choice, e, th');
  }

  lemma {:induction false} SetPredFacts(s: State, s': State, t: nat, choice: Choice, e: Effect, th': Thread)
    requires Own(s, s', t, choice, e, th') && s.threads[t].phase == SetPred
    ensures Facts(s', t, th')
  {
    hide NodeAt, SkipAt, Known, Moved, SearchOk, TargetOk, ValidOk, OwnNode, GrowOk, HeldOk, LockOk, Changed, View;
    OwnSearch(s, s', t, choice, e, th');
    SetPredValid(s, s', t, choice, e, th');
    SetPredOwn(s, s', t, choice, e, th');
    AddingHeld(s, s', t, choice, e, th');
    NoGrow(s', th');
  }

  lemma {:induction false} SetPredValid(s: State, s': State, t: nat, choice: Choice, e: Effect, th': Thread)
    requires Own(s, s', t, choice, e, th') && s.threads[t].phase == SetPred
    ensures ValidOk(s', th')
  {
    hide NodeAt, SkipAt, Known, Moved, SearchOk, TargetOk, OwnNode, GrowOk, HeldOk, Changed, View, At, Valid;
    OwnChange(s, s', t, choice, e, th');
    if th'.phase == SetOwn {
      forall j: nat | th'.layer <= j < th'.height
        ensures Valid(s', th', j)
      {
        OwnIsNotPred(s, t, j);
        ValidStays(s, s', t, e, s.threads[t], th', j);
      }
    }
  }

  lemma {:induction false} SetPredOwn(s: State, s': State, t: nat, choice: Choice, e: Effect, th': Thread)
    requires Own(s, s', t, choice, e, th') && s.threads[t].phase == SetPred
    ensures OwnNode(s', th') && TargetOk(s', t, th')
  {
    hide NodeAt, SkipAt, Known, Moved, SearchOk, GrowOk, HeldOk, LockOk, LinkUp, LinkNext, KeyOnce, NodeShape, At,
         Valid, Allowed;
    OwnChange(s, s', t, choice, e, th');
  }

  lemma {:induction false} SetLinkedFacts(s: State, s': State, t: nat, choice: Choice, e: Effect, th': Thread)
    requires Own(s, s', t, choice, e, th') && s.threads[t].phase == SetLinked
    ensures Facts(s', t, th')
  {
    hide NodeAt, SkipAt, Known, Moved, SearchOk, ValidOk, GrowOk, HeldOk, LockOk, Changed, View;
    OwnChange(s, s', t, choice, e, th');
    OwnSearch(s, s', t, choice, e, th');
    AddingHeld(s, s', t, choice, e, th');
    NoValid(s', th');
    NoOwn(s', th');
    NoGrow(s', th');
  }

  // ---- Unlinking ----

  lemma {:induction false} UnlinkFacts(s: State, s': State, t: nat, choice: Choice, e: Effect, th': Thread)
    requires Own(s, s', t, choice, e, th') && s.threads[t].phase == UnlinkPred
    ensures Facts(s', t, th')
  {
    hide NodeAt, SkipAt, Known, Moved, SearchOk, TargetOk, ValidOk, OwnNode, GrowOk, HeldOk, LockOk, Changed, View;
    OwnSearch(s, s', t, choice, e, th');
    UnlinkValid(s, s', t, choice, e, th');
    UnlinkTarget(s, s', t, choice, e, th');
    UnlinkHeld(s, s', t, choice, e, th');
    NoOwn(s', th');
    NoGrow(s', th');
  }

  lemma {:induction false} UnlinkValid(s: State, s': State, t: nat, choice: Choice, e: Effect, th': Thread)
    requires Own(s, s', t, choice, e, th') && s.threads[t].phase == UnlinkPred
    ensures ValidOk(s', th')
  {
    hide NodeAt, SkipAt, Known, Moved, SearchOk, OwnNode, GrowOk, HeldOk, TargetOk, Changed, View, At;
    OwnChange(s, s', t, choice, e, th');
    if th'.phase == ReadTarget {
      forall j: nat | j <= th'.layer
        ensures Valid(s', th', j)
      {
        assert Valid(s, s.threads[t], j);
        HeldRange(s, t, At(s.threads[t].preds, j));
        ValidStays(s, s', t, e, s.threads[t], th', j);
      }
    }
  }

  lemma {:induction false} UnlinkTarget(s: State, s': State, t: nat, choice: Choice, e: Effect, th': Thread)
    requires Own(s, s', t, choice, e, th') && s.threads[t].phase == UnlinkPred
    ensures TargetOk(s', t, th')
  {
    hide NodeAt, SkipAt, Known, Moved, SearchOk, GrowOk, HeldOk, LockOk, Layers, At, Valid, Allowed;
    OwnChange(s, s', t, choice, e, th');
  }

  lemma {:induction false} UnlinkHeld(s: State, s': State, t: nat, choice: Choice, e: Effect, th': Thread)
    requires Own(s, s', t, choice, e, th') && s.threads[t].phase == UnlinkPred
    ensures HeldOk(s', th')
  {
    hide NodeAt, SkipAt, Known, Moved, SearchOk, GrowOk, OwnNode, ValidOk, LockOk, At, Valid, Descending, View, Changed;
    OwnChange(s, s', t, choice, e, th');
    OwnDescending(s, s', t, choice, e, th');
  }

  // ---- Growing ----

  /** In these phases nothing but the new head and the held locks matters. */
  lemma {:induction false} GrowingFacts(s: State, s': State, t: nat, choice: Choice, e: Effect, th': Thread)
    requires Own(s, s', t, choice, e, th') && Growing(s.threads[t].phase) &&
             (Growing(th'.phase) || th'.phase == Release || th'.phase == Done)
    requires OwnNode(s', th') && GrowOk(s', th') && HeldOk(s', th')
    ensures Facts(s', t, th')
  {
    hide NodeAt, SkipAt, Known, Moved, SearchOk, ValidOk, OwnNode, HeldOk, LockOk, Changed, View, Action;
    OwnChange(s, s', t, choice, e, th');
    GrowingThread(s, t, choice);
    OwnSearch(s, s', t, choice, e, th');
    NoValid(s', th');
  }

  lemma {:induction false} GrowingThread(s: State, t: nat, choice: Choice)
    requires t < |s.threads| && Growing(s.threads[t].phase)
    ensures var th, th' := s.threads[t], Action(s, t, s.threads[t], choice).0;
            SamePath(th, th') && th'.op == th.op && th'.isMarked == th.isMarked && !Pathed(th'.phase)
  {
    hide NodeAt, SkipAt;
  }

  lemma {:induction false} GrowLoadFacts(s: State, s': State, t: nat, choice: Choice, e: Effect, th': Thread)
    requires Own(s, s', t, choice, e, th') && s.threads[t].phase == GrowLoad && e.NewNode?
    ensures Facts(s', t, th')
  {
    hide NodeAt, SkipAt, Known, Moved, SearchOk, TargetOk, ValidOk, LockOk, LinkUp, LinkNext, KeyOnce, NodeShape;
    OwnChange(s, s', t, choice, e, th');
    NewNodeSkips(s, s', t, e);
    LinkedInRange(s, s.head);
    GrowingFacts(s, s', t, choice, e, th');
  }

  lemma {:induction false} NewNodeSkips(s: State, s': State, t: nat, e: Effect)
    requires View(s, s', t, e) && e.NewNode?
    ensures forall j: nat :: SkipAt(s', |s.nodes|, j) == NIL
  {
    hide View;
    forall j: nat
      ensures SkipAt(s', |s.nodes|, j) == NIL
    {
      NewNodeSkip(s, s', t, e, j);
    }
  }

  lemma {:induction false} NewNodeSkip(s: State, s': State, t: nat, e: Effect, j: nat)
    requires View(s, s', t, e) && e.NewNode?
    ensures SkipAt(s', |s.nodes|, j) == NIL
  {
    assert SkipAt(s', |s.nodes|, j) == SkipAt(s, |s.nodes|, j);
  }

  lemma {:induction false} GrowLockFacts(s: State, s': State, t: nat, choice: Choice, e: Effect, th': Thread)
    requires Own(s, s', t, choice, e, th') && s.threads[t].phase == GrowLock && e.TakeLock?
    ensures Facts(s', t, th')
  {
    hide NodeAt, SkipAt, Known, Moved, SearchOk, TargetOk, ValidOk, LockOk, LinkUp, LinkNext, KeyOnce, Allowed;
    OwnChange(s, s', t, choice, e, th');
    assert NodeShape(s, s.threads[t].oldHead);
    GrowingFacts(s, s', t, choice, e, th');
  }

  lemma {:induction false} GrowCopyFacts(s: State, s': State, t: nat, choice: Choice, e: Effect, th': Thread)
    requires Own(s, s', t, choice, e, th') && s.threads[t].phase == GrowCopy
    ensures Facts(s', t, th')
  {
    hide NodeAt, SkipAt, Known, Moved, SearchOk, TargetOk, ValidOk, LockOk, LinkUp, LinkNext, KeyOnce, Allowed;
    OwnChange(s, s', t, choice, e, th');
    assert NodeShape(s, s.threads[t].target);
    GrowingFacts(s, s', t, choice, e, th');
  }

  lemma {:induction false} GrowCasFacts(s: State, s': State, t: nat, choice: Choice, e: Effect, th': Thread)
    requires Own(s, s', t, choice, e, th') && s.threads[t].phase == GrowCas && e.SetHead?
    ensures Facts(s', t, th')
  {
    hide NodeAt, SkipAt, Known, Moved, SearchOk, TargetOk, ValidOk, LockOk, LinkUp, LinkNext, KeyOnce, NodeShape,
         Allowed;
    OwnChange(s, s', t, choice, e, th');
    GrowingFacts(s, s', t, choice, e, th');
  }

  lemma {:induction false} GrowMarkFacts(s: State, s': State, t: nat, choice: Choice, e: Effect, th': Thread)
    requires Own(s, s', t, choice, e, th') && s.threads[t].phase == GrowMark
    ensures Facts(s', t, th')
  {
    hide NodeAt, SkipAt, Known, Moved, SearchOk, TargetOk, ValidOk, LockOk, Layers, Allowed;
    OwnChange(s, s', t, choice, e, th');
    GrowingFacts(s, s', t, choice, e, th');
  }
}
