/** Every run of the skip list keeps its layers sorted and nested, and no threads wait for each other in a circle. */
module SkipListSafety {
  import opened Wrappers
  import opened SkipList
  import opened SkipListLayers
  import opened SkipListThreads
  import opened SkipListSteps
  import opened SkipListChanges

  lemma {:induction false} ReadTargetFacts(s: State, t: nat, th: Thread, choice: Choice)
    requires Facts(s, t, th) && th.phase == ReadTarget
    ensures Facts(s, t, ChangeAction(s, t, th, choice).0)
  {
    hide NodeAt, SkipAt, SearchOk, OwnNode, GrowOk, Descending, HeldAs, Valid;
    var th' := ChangeAction(s, t, th, choice).0;
    SameValid(s, th, th');
    SearchCarried(s, th, th');
    NoOwn(s, th');
    NoGrow(s, th');
  }

  lemma {:induction false} GrowReadHeld(s: State, t: nat, th: Thread, choice: Choice)
    requires Facts(s, t, th) && th.phase in {GrowHeight, GrowLoad, GrowLock, GrowCas} &&
             ChangeAction(s, t, th, choice).1.NoEffect?
    ensures HeldOk(s, ChangeAction(s, t, th, choice).0)
  {
    hide NodeAt, SkipAt, SearchOk, TargetOk, ValidOk, OwnNode, Descending;
  }

  lemma {:induction false} GrowReadGrow(s: State, t: nat, th: Thread, choice: Choice)
    requires Facts(s, t, th) && th.phase in {GrowHeight, GrowLoad, GrowLock, GrowCas} &&
             ChangeAction(s, t, th, choice).1.NoEffect?
    ensures GrowOk(s, ChangeAction(s, t, th, choice).0) && TargetOk(s, t, ChangeAction(s, t, th, choice).0)
  {
    hide NodeAt, SkipAt, SearchOk, ValidOk, OwnNode, HeldOk;
  }

  lemma {:induction false} GrowReadFacts(s: State, t: nat, th: Thread, choice: Choice)
    requires Facts(s, t, th) && th.phase in {GrowHeight, GrowLoad, GrowLock, GrowCas} &&
             ChangeAction(s, t, th, choice).1.NoEffect?
    ensures Facts(s, t, ChangeAction(s, t, th, choice).0)
  {
    hide NodeAt, SkipAt, SearchOk, TargetOk, ValidOk, OwnNode, GrowOk, HeldOk;
    var th' := ChangeAction(s, t, th, choice).0;
    if th' != th {
      GrowReadHeld(s, t, th, choice);
      GrowReadGrow(s, t, th, choice);
      SearchCarried(s, th, th');
      NoValid(s, th');
      NoOwn(s, th');
    }
  }

  lemma {:induction false} SearchReadFacts(s: State, t: nat, th: Thread, choice: Choice)
    requires Layers(s) && Facts(s, t, th) && Searching(th.phase)
    ensures Facts(s, t, SearchAction(s, th, choice).0)
  {
    hide Layers, Facts, SearchAction;
    if th.phase == LoadHeight { LoadHeightFacts(s, t, th, choice); }
    else if th.phase == LoadHead { LoadHeadFacts(s, t, th, choice); }
    else if th.phase == ReadSkip { ReadSkipFacts(s, t, th, choice); }
    else { CheckFoundFacts(s, t, th, choice); }
  }

  lemma {:induction false} LockReadFacts(s: State, t: nat, th: Thread)
    requires Facts(s, t, th) && Locking(th.phase) && LockAction(s, t, th).1.NoEffect?
    ensures Facts(s, t, LockAction(s, t, th).0)
  {
    hide NodeAt, SkipAt, Facts, NextLock, Retry, At;
    if th.phase == RecheckMarked { RecheckFacts(s, t, th); }
    else if th.phase == Release { ReleasedFacts(s, t, th); }
    else if Checking(th.phase) {
      RetryFacts(s, t, th);
      if th.phase == LockPred { if LockAction(s, t, th).0 != th { AgainFacts(s, t, th); } }
      else if th.phase == CheckPred { if !NodeAt(s, At(th.preds, th.layer)).marked { CheckPredFacts(s, t, th); } }
      else if th.phase == CheckLink { if SkipAt(s, At(th.preds, th.layer), th.layer) == At(th.succs,
          th.layer) { CheckLinkFacts(s, t, th); } }
      else { CheckSuccFacts(s, t, th); }
    }
  }

  lemma {:induction false} ChangeReadFacts(s: State, t: nat, th: Thread, choice: Choice)
    requires Facts(s, t, th) && th.phase != Done && !Searching(th.phase) && !Locking(th.phase) &&
             ChangeAction(s, t, th, choice).1.NoEffect?
    ensures Facts(s, t, ChangeAction(s, t, th, choice).0)
  {
    hide NodeAt, SkipAt, Facts, At;
    if th.phase == ReadTarget { ReadTargetFacts(s, t, th, choice); }
    else { GrowReadFacts(s, t, th, choice); }
  }

  lemma {:induction false} ReadFacts(s: State, t: nat, choice: Choice)
    requires Layers(s) && t < |s.threads| && Facts(s, t, s.threads[t]) && Action(s, t, s.threads[t], choice).1.NoEffect?
    ensures Facts(s, t, Action(s, t, s.threads[t], choice).0)
  {
    hide NodeAt, SkipAt, Facts, Layers, SearchAction, LockAction, ChangeAction, Begin, Searching, Locking;
    var th := s.threads[t];
    if th.phase == Done { BeginFacts(s, t, choice); }
    else if Searching(th.phase) { SearchReadFacts(s, t, th, choice); }
    else if Locking(th.phase) { LockReadFacts(s, t, th); }
    else { ChangeReadFacts(s, t, th, choice); }
  }

  lemma {:induction false} WritePhases(s: State, t: nat, choice: Choice)
    requires t < |s.threads| && !Action(s, t, s.threads[t], choice).1.NoEffect?
    ensures var th, e := s.threads[t], Action(s, t, s.threads[t], choice).1;
            && th.phase in {LockTarget, MarkTarget, LockPred, Release, CreateNode, SetOwn, SetPred, SetLinked,
                            UnlinkPred, GrowLoad, GrowLock, GrowCopy, GrowCas, GrowMark}
            && (th.phase in {LockTarget, LockPred, GrowLock} ==> e.TakeLock?) && (th.phase == Release ==> e.DropLock?)
            && (th.phase == GrowLoad ==> e.NewNode?) && (th.phase == GrowCas ==> e.SetHead?)
  {
    hide NodeAt, SkipAt, At;
  }

  lemma {:induction false} WriteFacts(s: State, s': State, t: nat, choice: Choice)
    requires Known(s, t) && t < |s.threads| && Moved(s, s', t, choice) &&
             !Action(s, t, s.threads[t], choice).1.NoEffect?
    ensures Facts(s', t, Action(s, t, s.threads[t], choice).0)
  {
    hide Known, Moved, Facts, Action;
    var (th', e) := Action(s, t, s.threads[t], choice);
    WritePhases(s, t, choice);
    match s.threads[t].phase
    case LockTarget => TakeTargetFacts(s, s', t, choice, e, th');
    case MarkTarget => MarkFacts(s, s', t, choice, e, th');
    case LockPred => TakePredFacts(s, s', t, choice, e, th');
    case Release => DropFacts(s, s', t, choice, e, th');
    case CreateNode => CreateFacts(s, s', t, choice, e, th');
    case SetOwn => SetOwnFacts(s, s', t, choice, e, th');
    case SetPred => SetPredFacts(s, s', t, choice, e, th');
    case SetLinked => SetLinkedFacts(s, s', t, choice, e, th');
    case UnlinkPred => UnlinkFacts(s, s', t, choice, e, th');
    case GrowLoad => GrowLoadFacts(s, s', t, choice, e, th');
    case GrowLock => GrowLockFacts(s, s', t, choice, e, th');
    case GrowCopy => GrowCopyFacts(s, s', t, choice, e, th');
    case GrowCas => GrowCasFacts(s, s', t, choice, e, th');
    case GrowMark => GrowMarkFacts(s, s', t, choice, e, th');
  }

  lemma {:induction false} OwnFacts(s: State, t: nat, choice: Choice)
    requires Known(s, t) && t < |s.threads|
    ensures Facts(Step(s, t, choice), t, Action(s, t, s.threads[t], choice).0)
  {
    hide NodeAt, SkipAt, LockOk, OldHead, Layers, Facts, Action, Step, UnchangedMemory, Moved;
    var s' := Step(s, t, choice);
    if Action(s, t, s.threads[t], choice).1.NoEffect? {
      ReadFacts(s, t, choice);
      ReadLeavesMemory(s, t, choice);
      SameFacts(s, s', t, Action(s, t, s.threads[t], choice).0);
    } else {
      StepMoves(s, t, choice);
      WriteFacts(s, s', t, choice);
    }
  }

  lemma {:induction false} ReadLeavesMemory(s: State, t: nat, choice: Choice)
    requires t < |s.threads| && Action(s, t, s.threads[t], choice).1.NoEffect?
    ensures UnchangedMemory(s, Step(s, t, choice))
  {
    hide Action, UnchangedMemory;
    SameThreads(s, t, choice);
    SameNodes(s, Step(s, t, choice));
  }

  // ---- Locks ----

  /** A step adds to the held locks what it takes and removes what it drops. */
  lemma {:induction false} HeldAfter(s: State, t: nat, choice: Choice)
    requires t < |s.threads| && HeldOk(s, s.threads[t])
    ensures var th := s.threads[t]; var (th', e) := Action(s, t, th, choice);
            if e.TakeLock? then th'.held == th.held + [e.x]
            else if e.DropLock? then |th.held| > 0 && th'.held == th.held[..|th.held| - 1] &&
                e.x == th.held[|th.held| - 1]
            else th'.held == th.held
  {
    hide NodeAt, SkipAt, At, Descending, HeldAs, SearchStep, Searched, NextLock;
    if s.threads[t].phase == ReadSkip {
      StepKeeps(s, s.threads[t]);
      SearchedSame(SearchStep(s, s.threads[t]), choice);
    } else if s.threads[t].phase == CheckLink || s.threads[t].phase == CheckSucc {
      NextLockSame(s.threads[t]);
    }
  }

  lemma {:induction false} NextLockSame(th: Thread)
    ensures NextLock(th).held == th.held
  {
  }

  lemma {:induction false} Distinct(s: State, held: seq<nat>, i: nat, j: nat)
    requires Descending(s, held) && i < j < |held|
    ensures held[i] != held[j]
  {
    hide Below;
    BelowIrreflexive(s, held[i]);
  }

  lemma {:induction false} DropIsOut(s: State, held: seq<nat>)
    requires Descending(s, held) && |held| > 0
    ensures forall x: nat :: x in held[..|held| - 1] <==> x in held && x != held[|held| - 1]
  {
    hide Descending;
    forall i: nat | i < |held| - 1
      ensures held[i] != held[|held| - 1]
    {
      Distinct(s, held, i, |held| - 1);
    }
    assert held == held[..|held| - 1] + [held[|held| - 1]];
  }

  lemma {:induction false} OwnLocks(s: State, s': State, t: nat, choice: Choice)
    requires Known(s, t) && t < |s.threads| && Moved(s, s', t, choice)
    ensures LockOk(s', t)
  {
    hide NodeAt, SkipAt, Action, Layers, OldHead, SearchOk, TargetOk, ValidOk, OwnNode, GrowOk;
    HeldAfter(s, t, choice);
    var th := s.threads[t];
    var (th', e) := Action(s, t, th, choice);
    if e.DropLock? { DropIsOut(s, th.held); }
    forall x: nat
      ensures x in th'.held <==> NodeAt(s', x).lock == Some(t)
    {
      LockAfter(s, s', t, e, x);
    }
  }

  lemma {:induction false} LockAfter(s: State, s': State, t: nat, e: Effect, x: nat)
    requires Changed(s, s', t, e)
    ensures NodeAt(s', x).lock == (if e.TakeLock? && e.x == x then Some(t) else if e.DropLock? && e.x == x then None
                                   else NodeAt(s, x).lock)
  {
    hide SkipAt, Layers;
  }

  // ---- The invariant ----

  lemma {:induction false} SearchCreatesNot(s: State, th: Thread, choice: Choice)
    requires Searching(th.phase)
    ensures !Creating(SearchAction(s, th, choice).0)
  {
    hide NodeAt, SkipAt, At, SearchStep, Searched;
    if th.phase == ReadSkip {
      StepKeeps(s, th);
      SearchedCreatesNot(SearchStep(s, th), choice);
    }
  }

  lemma {:induction false} LockCreatesNot(s: State, t: nat, th: Thread)
    requires Locking(th.phase) && HeldOk(s, th)
    ensures !Creating(LockAction(s, t, th).0)
  {
    hide NodeAt, SkipAt, At, NextLock, Descending;
    NextLockCreatesNot(th);
  }

  lemma {:induction false} ChangeTarget(s: State, t: nat, th: Thread, choice: Choice)
    requires !Searching(th.phase) && !Locking(th.phase) && Creating(ChangeAction(s, t, th, choice).0)
    ensures var (th', e) := ChangeAction(s, t, th, choice);
            (Creating(th) && th'.target == th.target) || (e.NewNode? && th'.target == |s.nodes|)
  {
    hide NodeAt, SkipAt, At;
  }

  lemma {:induction false} TargetOnly(s: State, t: nat, choice: Choice)
    requires t < |s.threads| && HeldOk(s, s.threads[t]) && Creating(Action(s, t, s.threads[t], choice).0)
    ensures var th := s.threads[t]; var (th', e) := Action(s, t, th, choice);
            (Creating(th) && th'.target == th.target) || (e.NewNode? && th'.target == |s.nodes|)
  {
    hide NodeAt, SkipAt, SearchAction, LockAction, ChangeAction, HeldOk, Searching, Locking;
    var th := s.threads[t];
    if th.phase == Done {
    } else if Searching(th.phase) {
      SearchCreatesNot(s, th, choice);
    } else if Locking(th.phase) {
      LockCreatesNot(s, t, th);
    } else {
      ChangeTarget(s, t, th, choice);
    }
  }

  lemma {:induction false} SearchedCreatesNot(th: Thread, choice: Choice)
    ensures !Creating(Searched(th, choice))
  {
  }

  lemma {:induction false} NextLockCreatesNot(th: Thread)
    ensures !Creating(NextLock(th))
  {
  }

  /** A node under construction still has one creator. */
  lemma {:induction false} OneCreator(s: State, t: nat, choice: Choice, u: nat)
    requires t < |s.threads| && u < |s.threads| && u != t && HeldOk(s, s.threads[t]) && OwnNode(s, s.threads[u]) &&
             !SameNode(s.threads[t], s.threads[u])
    ensures !SameNode(Action(s, t, s.threads[t], choice).0, s.threads[u])
  {
    hide NodeAt, SkipAt, Action;
    if Creating(Action(s, t, s.threads[t], choice).0) { TargetOnly(s, t, choice); }
  }

  lemma {:induction false} OldHeadStays(s: State, s': State, t: nat, choice: Choice, x: nat)
    requires Inv(s) && t < |s.threads| && Moved(s, s', t, choice)
    ensures OldHead(s', x)
  {
    hide NodeAt, SkipAt, Layers, Facts, LockOk, Moved, OldHead, SameNode;
    if NodeAt(s', x).isHead && NodeAt(s', x).links > 0 && x != s'.head && !NodeAt(s', x).marked {
      OldHeadBefore(s, s', t, choice, x);
      InvKnown(s, t);
      if x == s.head {
        HeadReplaced(s, s', t, choice);
        OldHeadWitness(s', x, t);
      } else {
        OldHeadHolder(s, x);
        var g: nat :| g < |s.threads| && NodeAt(s, x).lock == Some(g) && s.threads[g].phase == GrowMark &&
            s.threads[g].oldHead == x;
        if g == t { MarksOldHead(s, s', t, choice); }
        else {
          LockedKept(s, s', t, choice, g, x, 0);
          SameThread(s, s', t, choice, g);
          OldHeadWitness(s', x, g);
        }
      }
    } else {
      NoOldHead(s', x);
    }
  }

  lemma {:induction false} NoOldHead(s: State, x: nat)
    requires !(NodeAt(s, x).isHead && NodeAt(s, x).links > 0 && x != s.head && !NodeAt(s, x).marked)
    ensures OldHead(s, x)
  {
    hide NodeAt;
  }

  lemma {:induction false} OldHeadHolder(s: State, x: nat)
    requires OldHead(s, x) && NodeAt(s, x).isHead && NodeAt(s, x).links > 0 && x != s.head && !NodeAt(s, x).marked
    ensures exists g: nat ::
              g < |s.threads| && NodeAt(s, x).lock == Some(g) && s.threads[g].phase == GrowMark &&
                  s.threads[g].oldHead == x
    ensures x < |s.nodes|
  {
    LinkedInRange(s, x);
  }

  lemma {:induction false} OldHeadWitness(s: State, x: nat, g: nat)
    requires g < |s.threads| && NodeAt(s, x).lock == Some(g) && s.threads[g].phase == GrowMark &&
             s.threads[g].oldHead == x
    ensures OldHead(s, x)
  {
    hide NodeAt;
  }

  lemma {:induction false} SameThread(s: State, s': State, t: nat, choice: Choice, g: nat)
    requires Moved(s, s', t, choice) && g < |s.threads| && g != t
    ensures g < |s'.threads| && s'.threads[g] == s.threads[g]
  {
    hide Action, Changed;
  }

  lemma {:induction false} OldHeadBefore(s: State, s': State, t: nat, choice: Choice, x: nat)
    requires Moved(s, s', t, choice) && NodeAt(s', x).isHead && NodeAt(s', x).links > 0 && x != s'.head &&
             !NodeAt(s', x).marked
    ensures NodeAt(s, x).isHead && NodeAt(s, x).links > 0 && !NodeAt(s, x).marked
  {
    hide NodeAt, SkipAt, Action, LinkUp, LinkNext, KeyOnce, NodeShape;
  }

  lemma {:induction false} HeadReplaced(s: State, s': State, t: nat, choice: Choice)
    requires Known(s, t) && t < |s.threads| && Moved(s, s', t, choice) && s.head != s'.head
    ensures t < |s'.threads| && NodeAt(s', s.head).lock == Some(t) && s'.threads[t].phase == GrowMark &&
            s'.threads[t].oldHead == s.head
  {
    hide NodeAt, SkipAt, Layers, Known, SearchAction, LockAction, Searching, Locking;
    SetHeadPhase(s, t, choice);
  }

  lemma {:induction false} SetHeadPhase(s: State, t: nat, choice: Choice)
    requires t < |s.threads| && Action(s, t, s.threads[t], choice).1.SetHead?
    ensures var th := s.threads[t]; var (th', e) := Action(s, t, th, choice);
            th'.phase == GrowMark && th'.oldHead == s.head
  {
    hide NodeAt, SkipAt, At;
  }

  lemma {:induction false} MarksOldHead(s: State, s': State, t: nat, choice: Choice)
    requires Known(s, t) && t < |s.threads| && Moved(s, s', t, choice) && s.threads[t].phase == GrowMark
    ensures NodeAt(s', s.threads[t].oldHead).marked
  {
    hide NodeAt, SkipAt, Layers, Facts, LockOk, OldHead, Allowed;
  }

  lemma {:induction false} OwnerStays(s: State, s': State, t: nat, choice: Choice, x: nat)
    requires Moved(s, s', t, choice) && OwnerOk(s, x)
    ensures OwnerOk(s', x)
  {
    hide NodeAt, SkipAt, Layers, Action;
  }

  lemma {:induction false} FactsOfAll(s: State, t: nat, choice: Choice, u: nat)
    requires Inv(s) && t < |s.threads| && u < |s.threads|
    ensures var s' := Step(s, t, choice); |s'.threads| == |s.threads| && Facts(s', u, s'.threads[u]) && LockOk(s', u)
  {
    hide NodeAt, SkipAt, Layers, Facts, LockOk, OldHead, Action, Moved, SameNode, Step;
    var s' := Step(s, t, choice);
    InvKnown(s, t);
    InvKnown(s, u);
    StepMoves(s, t, choice);
    SameThreads(s, t, choice);
    if u == t {
      OwnFacts(s, t, choice);
      OwnLocks(s, s', t, choice);
    } else {
      OthersFacts(s, s', t, choice, u);
    }
  }

  lemma {:induction false} OneCreatorAfter(s: State, t: nat, choice: Choice, u: nat, v: nat)
    requires Inv(s) && t < |s.threads| && u < |s.threads| && v < |s.threads| && u != v
    ensures var s' := Step(s, t, choice); |s'.threads| == |s.threads| && !SameNode(s'.threads[u], s'.threads[v])
  {
    hide NodeAt, SkipAt, Layers, LockOk, OldHead, Action, SearchOk, TargetOk, ValidOk, OwnNode, GrowOk, HeldOk, Step,
         SameNode;
    SameThreads(s, t, choice);
    InvKnown(s, t);
    InvKnown(s, u);
    InvKnown(s, v);
    NotSame(s, u, v);
    if u == t { OneCreator(s, t, choice, v); }
    else if v == t {
      OneCreator(s, t, choice, u);
      SameNodeSymmetric(Action(s, t, s.threads[t], choice).0, s.threads[u]);
    }
  }

  lemma {:induction false} SameNodeSymmetric(a: Thread, b: Thread)
    ensures SameNode(a, b) == SameNode(b, a)
  {
  }

  lemma {:induction false} NotSame(s: State, u: nat, v: nat)
    requires Inv(s) && u < |s.threads| && v < |s.threads| && u != v
    ensures !SameNode(s.threads[u], s.threads[v]) && !SameNode(s.threads[v], s.threads[u])
  {
    hide Layers, Facts, LockOk, OldHead, SameNode;
  }

  lemma {:induction false} StepKeepsInv(s: State, t: nat, choice: Choice)
    requires Inv(s) && t < |s.threads|
    ensures Inv(Step(s, t, choice))
  {
    hide NodeAt, SkipAt, Layers, Facts, LockOk, OldHead, Action, Moved, SameNode, Step, OwnerOk;
    var s' := Step(s, t, choice);
    InvKnown(s, t);
    StepMoves(s, t, choice);
    SameThreads(s, t, choice);
    LayersStay(s, s', t, choice);
    forall u: nat | u < |s'.threads|
      ensures Facts(s', u, s'.threads[u]) && LockOk(s', u)
    {
      FactsOfAll(s, t, choice, u);
    }
    forall u: nat, v: nat | u < |s'.threads| && v < |s'.threads| && SameNode(s'.threads[u], s'.threads[v])
      ensures u == v
    {
      if u != v { OneCreatorAfter(s, t, choice, u, v); }
    }
    forall x: nat
      ensures OldHead(s', x) && OwnerOk(s', x)
    {
      OldHeadStays(s, s', t, choice, x);
      OwnerStays(s, s', t, choice, x);
    }
  }

  lemma {:induction false} LayersStay(s: State, s': State, t: nat, choice: Choice)
    requires Moved(s, s', t, choice)
    ensures Layers(s')
  {
    hide Action, Changed, Layers;
    LayersKept(s, s', t, Action(s, t, s.threads[t], choice).1);
  }

  lemma {:induction false} InitLayers(s: State)
    requires Init(s)
    ensures Layers(s)
  {
    assert forall x: nat :: x != 1 ==> NodeAt(s, x).links == 0;
    assert forall x: nat, k: nat :: SkipAt(s, x, k) == NIL;
  }

  lemma {:induction false} InitFacts(s: State, t: nat)
    requires Init(s) && t < |s.threads|
    ensures Facts(s, t, s.threads[t]) && LockOk(s, t)
  {
    hide SkipAt, Facts;
    IdleFacts(s, t, s.threads[t]);
  }

  lemma {:induction false} IdleFacts(s: State, t: nat, th: Thread)
    requires th == Begin(Choice(Add, 0, 0, false)).(phase := Done)
    ensures Facts(s, t, th)
  {
    hide NodeAt, SkipAt;
  }

  lemma {:induction false} InitInv(s: State)
    requires Init(s)
    ensures Inv(s)
  {
    hide SkipAt, Layers, Facts, LockOk;
    InitLayers(s);
    forall t: nat | t < |s.threads|
      ensures Facts(s, t, s.threads[t]) && LockOk(s, t)
    {
      InitFacts(s, t);
    }
  }

  /** The invariant holds in every state of every run. */
  lemma {:induction false} RunKeepsInv(run: seq<State>, n: nat)
    requires Reachable(run) && n < |run|
    ensures Inv(run[n])
    decreases n
  {
    hide Inv, Init, Step;
    if n == 0 {
      InitInv(run[0]);
    } else {
      RunKeepsInv(run, n - 1);
      assert Next(run[n - 1], run[n]);
      var t: nat, choice :| t < |run[n - 1].threads| && run[n] == Step(run[n - 1], t, choice);
      StepKeepsInv(run[n - 1], t, choice);
    }
  }

  // ---- What this means for every run ----

  lemma {:induction false} RunKeepsLayers(run: seq<State>, n: nat)
    requires Reachable(run) && n < |run|
    ensures Layers(run[n])
  {
    hide Layers, Facts, LockOk, OldHead, OwnerOk, Reachable;
    RunKeepsInv(run, n);
  }

  /** In every state of every run, each link of a layer leads from one key to a greater one. */
  lemma {:induction false} LayersStaySorted(run: seq<State>, n: nat, k: nat, x: nat, m: nat)
    requires Reachable(run) && n < |run| && k < NodeAt(run[n], run[n].head).height && Walk(run[n], k, x, m)
    ensures var y := SkipAt(run[n], x, k); y != NIL ==> NodeAt(run[n], x).key < NodeAt(run[n], y).key
  {
    hide NodeAt, SkipAt, Layers, Reachable, Walk;
    RunKeepsLayers(run, n);
    if SkipAt(run[n], x, k) != NIL { WalkIsSorted(run[n], k, x, m, SkipAt(run[n], x, k)); }
  }

  /** In every state of every run, each layer is part of the layer below. */
  lemma {:induction false} LayersStayNested(run: seq<State>, n: nat, k: nat, x: nat, m: nat)
    requires Reachable(run) && n < |run| && k + 1 < NodeAt(run[n], run[n].head).height && Walk(run[n], k + 1, x, m)
    ensures exists i: nat :: Walk(run[n], k, x, i)
  {
    hide NodeAt, SkipAt, Layers, Reachable, Walk;
    RunKeepsLayers(run, n);
    LayersAreNested(run[n], k, x, m);
  }

  // ---- The keys as a set ----

  /** The key is in the bottom layer. */
  ghost predicate HasKey(s: State, key: int) {
    exists x: nat :: InLayer(s, x, 0) && !NodeAt(s, x).isHead && NodeAt(s, x).key == key
  }

  /** A walk along the bottom layer meets the key. */
  ghost predicate Meets(s: State, key: int) {
    exists x: nat, m: nat :: Walk(s, 0, x, m) && !NodeAt(s, x).isHead && NodeAt(s, x).key == key
  }

  lemma {:induction false} MeetsHasKey(s: State, key: int)
    requires Layers(s)
    ensures HasKey(s, key) ==> Meets(s, key)
    ensures Meets(s, key) ==> HasKey(s, key)
  {
    hide NodeAt, SkipAt, Layers, Walk, InLayer;
    NilIsNoHead(s);
    if HasKey(s, key) {
      var x: nat :| InLayer(s, x, 0) && !NodeAt(s, x).isHead && NodeAt(s, x).key == key;
      WalkIsLayer(s, 0, x);
      var m: nat :| Walk(s, 0, x, m);
    }
    if Meets(s, key) {
      var x: nat, m: nat :| Walk(s, 0, x, m) && !NodeAt(s, x).isHead && NodeAt(s, x).key == key;
      WalkInLayer(s, 0, x, m);
    }
  }

  lemma {:induction false} HasKeyIsWalk(run: seq<State>, n: nat, key: int)
    requires Reachable(run) && n < |run|
    ensures HasKey(run[n], key) <==> Meets(run[n], key)
  {
    hide Layers, Reachable, HasKey, Meets;
    RunKeepsLayers(run, n);
    MeetsHasKey(run[n], key);
  }

  /** The set of keys after an effect. */
  ghost predicate KeysAfter(s: State, s': State, e: Effect, key: int) {
    && ((e.Link? || e.Unlink?) && e.k == 0 && key == NodeAt(s, e.y).key ==>
        HasKey(s, key) == e.Unlink? && HasKey(s', key) == e.Link?)
    && (!((e.Link? || e.Unlink?) && e.k == 0 && key == NodeAt(s, e.y).key) ==> HasKey(s', key) == HasKey(s, key))
  }

  lemma {:induction false} KeyEntered(s: State, s': State, t: nat, e: Effect, key: int)
    requires Changed(s, s', t, e) && HasKey(s', key)
    ensures HasKey(s, key) || (e.Link? && e.k == 0 && key == NodeAt(s, e.y).key)
  {
    hide NodeAt, SkipAt, Layers, InLayer, View, Allowed;
    var x: nat :| InLayer(s', x, 0) && !NodeAt(s', x).isHead && NodeAt(s', x).key == key;
    Entered(s, s', t, e, x, 0);
    SameKeys(s, s', t, e, x, x);
  }

  lemma {:induction false} KeyLeft(s: State, s': State, t: nat, e: Effect, key: int)
    requires Changed(s, s', t, e) && HasKey(s, key)
    ensures HasKey(s', key) || (e.Unlink? && e.k == 0 && key == NodeAt(s, e.y).key)
  {
    hide NodeAt, SkipAt, Layers, InLayer, View, Allowed;
    var x: nat :| InLayer(s, x, 0) && !NodeAt(s, x).isHead && NodeAt(s, x).key == key;
    InRange(s, x, 0);
    Left(s, s', t, e, x, 0);
    SameKeys(s, s', t, e, x, x);
    HeadIsHead(s);
  }

  lemma {:induction false} HeadIsHead(s: State)
    requires Layers(s)
    ensures NodeAt(s, s.head).isHead
  {
    hide NodeAt, SkipAt, LinkUp, LinkNext, KeyOnce, NodeShape;
  }

  lemma {:induction false} LinkAddsKey(s: State, s': State, t: nat, e: Effect)
    requires Changed(s, s', t, e) && e.Link? && e.k == 0
    ensures !HasKey(s, NodeAt(s, e.y).key) && HasKey(s', NodeAt(s, e.y).key)
  {
    hide NodeAt, SkipAt, Layers, InLayer, View, Allowed;
    LinkEffect(s, s', t, e);
    LinkFacts(s, e.x, 0, e.y);
    if x: nat :| InLayer(s, x, 0) && !NodeAt(s, x).isHead && NodeAt(s, x).key == NodeAt(s, e.y).key {
      NewKeyDiffers(s, e.x, 0, e.y, x);
    }
    LinkedIn(s, s', t, e);
    LinkedNoHead(s, s', t, e);
  }

  lemma {:induction false} LinkedNoHead(s: State, s': State, t: nat, e: Effect)
    requires Changed(s, s', t, e) && e.Link?
    ensures InLayer(s', e.y, e.k) && !NodeAt(s', e.y).isHead && NodeAt(s', e.y).key == NodeAt(s, e.y).key
  {
    hide NodeAt, SkipAt, Layers;
  }

  lemma {:induction false} UnlinkDropsKey(s: State, s': State, t: nat, e: Effect)
    requires Changed(s, s', t, e) && e.Unlink? && e.k == 0
    ensures HasKey(s, NodeAt(s, e.y).key) && !HasKey(s', NodeAt(s, e.y).key)
  {
    hide NodeAt, SkipAt, LinkUp, LinkNext, NodeShape, InLayer, View, Allowed;
    UnlinkedOut(s, s', t, e);
    UnlinkedNoHead(s, s', t, e);
    if x: nat :| InLayer(s', x, 0) && !NodeAt(s', x).isHead && NodeAt(s', x).key == NodeAt(s, e.y).key {
      Entered(s, s', t, e, x, 0);
      SameKeys(s, s', t, e, x, x);
      SameNodeOfKey(s, x, e.y);
    }
  }

  lemma {:induction false} SameNodeOfKey(s: State, x: nat, y: nat)
    requires Layers(s) && InLayer(s, x, 0) && InLayer(s, y, 0) && !NodeAt(s, x).isHead && !NodeAt(s, y).isHead &&
             NodeAt(s, x).key == NodeAt(s, y).key
    ensures x == y
  {
    hide NodeAt, SkipAt, LinkUp, LinkNext, NodeShape, InLayer;
    assert KeyOnce(s, x, y, 0);
  }

  lemma {:induction false} UnlinkedNoHead(s: State, s': State, t: nat, e: Effect)
    requires Changed(s, s', t, e) && e.Unlink?
    ensures !NodeAt(s, e.y).isHead
  {
    hide NodeAt, SkipAt, Layers, InLayer;
  }

  lemma {:induction false} KeysChange(s: State, s': State, t: nat, e: Effect, key: int)
    requires Changed(s, s', t, e)
    ensures KeysAfter(s, s', e, key)
  {
    hide NodeAt, SkipAt, Layers, InLayer, View, Allowed, HasKey, Changed;
    if e.Link? && e.k == 0 { LinkAddsKey(s, s', t, e); }
    if e.Unlink? && e.k == 0 { UnlinkDropsKey(s, s', t, e); }
    if HasKey(s', key) { KeyEntered(s, s', t, e, key); }
    if HasKey(s, key) { KeyLeft(s, s', t, e, key); }
  }

  /** The step at which an add takes effect, and the one at which a remove does. */
  predicate Adds(s: State, t: nat, key: int) {
    t < |s.threads| && s.threads[t].phase == SetPred && s.threads[t].layer == 0 && s.threads[t].data == key
  }

  predicate Removes(s: State, t: nat, key: int) {
    t < |s.threads| && s.threads[t].phase == UnlinkPred && s.threads[t].layer == 0 && s.threads[t].data == key
  }

  lemma {:induction false} LinkEffects(s: State, t: nat, choice: Choice, key: int)
    requires Known(s, t) && t < |s.threads|
    ensures var e := Action(s, t, s.threads[t], choice).1;
            && (Adds(s, t, key) <==> e.Link? && e.k == 0 && NodeAt(s, e.y).key == key)
            && (Removes(s, t, key) <==> e.Unlink? && e.k == 0 && NodeAt(s, e.y).key == key)
  {
    hide NodeAt, SkipAt, At, SearchOk, ValidOk, GrowOk, HeldOk, LockOk, OldHead, Layers;
    LinkPhases(s, t, choice);
  }

  lemma {:induction false} LinkPhases(s: State, t: nat, choice: Choice)
    requires t < |s.threads|
    ensures var th := s.threads[t]; var e := Action(s, t, th, choice).1;
            && (e.Link? <==> th.phase == SetPred) && (e.Link? ==> e.k == th.layer && e.y == th.target)
            && (e.Unlink? <==> th.phase == UnlinkPred) && (e.Unlink? ==> e.k == th.layer && e.y == th.target)
  {
    hide NodeAt, SkipAt, At;
  }

  /** The list is a set: an add puts in its key, which was absent, a remove takes out its key, which was present, each
      in one step; no other step changes any key. */
  lemma {:induction false} OperationsAreAtomic(run: seq<State>, n: nat, t: nat, choice: Choice, key: int)
    requires Reachable(run) && n + 1 < |run| && t < |run[n].threads| && run[n + 1] == Step(run[n], t, choice)
    ensures Adds(run[n], t, key) ==> !HasKey(run[n], key) && HasKey(run[n + 1], key)
    ensures Removes(run[n], t, key) ==> HasKey(run[n], key) && !HasKey(run[n + 1], key)
    ensures !Adds(run[n], t, key) && !Removes(run[n], t, key) ==> HasKey(run[n + 1], key) == HasKey(run[n], key)
  {
    hide Inv, Reachable, Step, Known, HasKey, Adds, Removes, Action, Moved, NodeAt;
    RunKeepsInv(run, n);
    InvKnown(run[n], t);
    StepMoves(run[n], t, choice);
    LinkEffects(run[n], t, choice, key);
    MovedIsChange(run[n], run[n + 1], t, choice);
    KeysChange(run[n], run[n + 1], t, Action(run[n], t, run[n].threads[t], choice).1, key);
  }

  lemma {:induction false} MovedIsChange(s: State, s': State, t: nat, choice: Choice)
    requires Moved(s, s', t, choice)
    ensures Changed(s, s', t, Action(s, t, s.threads[t], choice).1)
  {
    hide Changed, Action;
  }

  // ---- No wait cycle ----

  /** The node whose lock the thread is about to take. */
  function Wanted(th: Thread): Option<nat> {
    match th.phase
    case LockTarget => Some(th.target)
    case LockPred => if th.layer > 0 && At(th.preds, th.layer - 1) == At(th.preds, th.layer) then None
        else Some(At(th.preds, th.layer))
    case GrowLock => Some(th.oldHead)
    case _ => None
  }

  /** Thread t is blocked by a lock that u holds. */
  predicate WaitsFor(s: State, t: nat, u: nat) {
    t < |s.threads| && u < |s.threads| && Wanted(s.threads[t]).Some? &&
        NodeAt(s, Wanted(s.threads[t]).value).lock == Some(u)
  }

  ghost predicate WaitChain(s: State, ts: seq<nat>) {
    && |ts| > 1 && (forall i :: 0 <= i < |ts| ==> ts[i] < |s.threads|)
    && forall i :: 0 <= i < |ts| - 1 ==> WaitsFor(s, ts[i], ts[i + 1])
  }

  /** A thread does not hold the lock it wants, and wants one below all it holds. */
  lemma {:induction false} WantsBelow(s: State, t: nat, x: nat)
    requires Known(s, t) && t < |s.threads| && Wanted(s.threads[t]).Some? && x in s.threads[t].held
    requires NodeAt(s, Wanted(s.threads[t]).value).lock != Some(t)
    ensures Below(s, Wanted(s.threads[t]).value, x)
  {
    hide NodeAt, SkipAt, Layers, Below, SearchOk, TargetOk, ValidOk, OwnNode, GrowOk, OldHead, Descending, At, LockOk;
    var th := s.threads[t];
    if th.phase == LockPred { WantedIsBelow(s, t, x); }
  }

  lemma {:induction false} NotHeldByItself(s: State, t: nat)
    requires Known(s, t) && t < |s.threads| && Wanted(s.threads[t]).Some?
    ensures NodeAt(s, Wanted(s.threads[t]).value).lock != Some(t)
  {
    hide NodeAt, SkipAt, Layers, Below, OldHead, SearchOk, TargetOk, ValidOk, OwnNode, GrowOk, At, Descending;
    var th := s.threads[t];
    if th.phase == LockPred && Wanted(th).value in th.held {
      NotTwice(s, t, Wanted(th).value);
    }
  }

  lemma {:induction false} PredIsNotTarget(s: State, t: nat)
    requires Known(s, t) && t < |s.threads| && s.threads[t].phase == LockPred && s.threads[t].isMarked
    ensures At(s.threads[t].preds, s.threads[t].layer) != s.threads[t].target
  {
    hide NodeAt, SkipAt, Layers, OldHead, OwnNode, GrowOk, LockOk, HeldOk, At, Valid, FoundOk, Below;
    var th := s.threads[t];
    assert PathAt(s, th, th.layer);
    TargetAbove(s, th, At(th.preds, th.layer));
    BelowIrreflexive(s, th.target);
  }

  /** A predecessor that differs from the one below differs from all below. */
  lemma {:induction false} PredIsNew(s: State, t: nat, j: nat)
    requires Known(s, t) && t < |s.threads| && s.threads[t].phase == LockPred && j < s.threads[t].layer
    requires At(s.threads[t].preds, s.threads[t].layer - 1) != At(s.threads[t].preds, s.threads[t].layer)
    ensures At(s.threads[t].preds, s.threads[t].layer) != At(s.threads[t].preds, j)
  {
    hide NodeAt, SkipAt, Layers, OldHead, OwnNode, GrowOk, LockOk, HeldOk, TargetOk, At, Valid, FoundOk, Below, PathAt;
    var th := s.threads[t];
    var p, q := At(th.preds, th.layer), At(th.preds, th.layer - 1);
    assert AtOrBelow(s, p, q);
    if j < th.layer - 1 {
      assert AtOrBelow(s, q, At(th.preds, j));
      BelowAntisymmetric(s, p, q);
    }
  }

  /** The predecessor to lock is neither the marked node nor one locked at an earlier layer. */
  lemma {:induction false} NotTwice(s: State, t: nat, p: nat)
    requires Known(s, t) && t < |s.threads| && s.threads[t].phase == LockPred && Wanted(s.threads[t]) == Some(p)
    ensures p !in s.threads[t].held
  {
    hide NodeAt, SkipAt, Layers, OldHead, OwnNode, GrowOk, LockOk, SearchOk, TargetOk, ValidOk, At, Descending;
    var th := s.threads[t];
    if p in th.held {
      if th.isMarked { PredIsNotTarget(s, t); }
      if HeldAs(th, p) {
        var j: nat :| j < th.layer && p == At(th.preds, j);
        PredIsNew(s, t, j);
      }
    }
  }

  /** Along a chain the wanted nodes descend. */
  lemma {:induction false} ChainDescends(s: State, ts: seq<nat>, i: nat)
    requires Inv(s) && WaitChain(s, ts) && i + 1 < |ts| - 1
    ensures Wanted(s.threads[ts[i]]).Some? && Wanted(s.threads[ts[i + 1]]).Some?
    ensures Below(s, Wanted(s.threads[ts[i + 1]]).value, Wanted(s.threads[ts[i]]).value)
  {
    hide NodeAt, SkipAt, Layers, Facts, OldHead, OwnerOk, SameNode, Below, Wanted;
    assert WaitsFor(s, ts[i], ts[i + 1]) && WaitsFor(s, ts[i + 1], ts[i + 2]);
    InvKnown(s, ts[i + 1]);
    NotHeldByItself(s, ts[i + 1]);
    WantsBelow(s, ts[i + 1], Wanted(s.threads[ts[i]]).value);
  }

  lemma {:induction false} ChainEnd(s: State, ts: seq<nat>, i: nat)
    requires Inv(s) && WaitChain(s, ts) && i < |ts| - 1
    ensures Wanted(s.threads[ts[0]]).Some? && Wanted(s.threads[ts[i]]).Some?
    ensures AtOrBelow(s, Wanted(s.threads[ts[i]]).value, Wanted(s.threads[ts[0]]).value)
    decreases i
  {
    hide NodeAt, SkipAt, Inv, Below, Wanted;
    assert WaitsFor(s, ts[0], ts[1]) && WaitsFor(s, ts[i], ts[i + 1]);
    if i > 0 {
      ChainEnd(s, ts, i - 1);
      ChainDescends(s, ts, i - 1);
      AtOrBelowTrans(s, Wanted(s.threads[ts[i]]).value, Wanted(s.threads[ts[i - 1]]).value,
                     Wanted(s.threads[ts[0]]).value);
    }
  }

  /** In no state of any run do threads wait for each other in a circle; in particular none waits for itself. */
  lemma {:induction false} NoWaitCycle(run: seq<State>, n: nat, ts: seq<nat>)
    requires Reachable(run) && n < |run| && WaitChain(run[n], ts)
    ensures ts[0] != ts[|ts| - 1]
  {
    hide NodeAt, SkipAt, Inv, Below, Reachable, Wanted, Known;
    var s := run[n];
    RunKeepsInv(run, n);
    if ts[0] == ts[|ts| - 1] {
      var i := |ts| - 2;
      assert WaitsFor(s, ts[0], ts[1]) && WaitsFor(s, ts[i], ts[i + 1]);
      ChainEnd(s, ts, i);
      InvKnown(s, ts[0]);
      CycleCloses(s, ts[0], Wanted(s.threads[ts[i]]).value);
    }
  }

  /** A thread cannot hold a node at or below the one it wants. */
  lemma {:induction false} CycleCloses(s: State, t: nat, x: nat)
    requires Known(s, t) && t < |s.threads| && Wanted(s.threads[t]).Some? && NodeAt(s, x).lock == Some(t)
    ensures !AtOrBelow(s, x, Wanted(s.threads[t]).value)
  {
    hide NodeAt, SkipAt, Below, Wanted, Layers, Facts, OldHead;
    NotHeldByItself(s, t);
    WantsBelow(s, t, x);
    BelowAntisymmetric(s, x, Wanted(s.threads[t]).value);
  }
}
