/** What a finished operation on the skip list has done: the steps of its own that brought its answer about, and what it
    leaves behind. */
module SkipListOutcomes {
  import opened Wrappers
  import opened SkipList
  import opened SkipListLayers
  import opened SkipListThreads
  import opened SkipListSafety
  import opened SkipListMembers
  import opened SkipListHistory

  // ---- Steps of one's own ----

  /** The step from state m to the next is taken by thread t. */
  ghost predicate Takes(run: seq<State>, m: nat, t: nat, choice: Choice) {
    m + 1 < |run| && t < |run[m].threads| && run[m + 1] == Step(run[m], t, choice)
  }

  ghost predicate TakesStep(run: seq<State>, m: nat, t: nat) {
    exists choice :: Takes(run, m, t, choice)
  }

  /** The step by which thread t marks node x ends the membership of its key. */
  ghost predicate Discarding(run: seq<State>, m: nat, t: nat, x: nat, key: int) {
    && m + 1 < |run| && TakesStep(run, m, t)
    && IsMember(run[m], x, key) && !Member(run[m + 1], key) && NodeAt(run[m + 1], x).marked
  }

  /** The step of thread t takes the key out of the bottom layer, or puts it in. */
  ghost predicate Unlinking(run: seq<State>, m: nat, t: nat, key: int) {
    m + 1 < |run| && TakesStep(run, m, t) && HasKey(run[m], key) && !HasKey(run[m + 1], key)
  }

  ghost predicate Linking(run: seq<State>, m: nat, t: nat, key: int) {
    m + 1 < |run| && TakesStep(run, m, t) && !HasKey(run[m], key) && HasKey(run[m + 1], key)
  }

  /** The step of thread t completes node x, which makes its key a member. */
  ghost predicate Completing(run: seq<State>, m: nat, t: nat, x: nat, key: int) {
    m + 1 < |run| && TakesStep(run, m, t) && !Member(run[m], key) && IsMember(run[m + 1], x, key)
  }

  // ---- What a remove has done ----

  /** The node has been taken out of every layer. */
  ghost predicate Gone(s: State, x: nat, key: int) {
    && x < |s.nodes| && NodeAt(s, x).key == key && NodeAt(s, x).marked
    && NodeAt(s, x).kept == 0 && !NodeAt(s, x).isHead
  }

  /** A remove that has nothing left to do but to give up its locks. */
  predicate Over(th: Thread) {
    th.phase == Done || (th.phase == Release && th.next == Done)
  }

  ghost predicate Discarded(run: seq<State>, b: nat, n: nat, t: nat, th: Thread) {
    exists m: nat :: b < m < n && Discarding(run, m, t, th.target, th.data)
  }

  ghost predicate Unlinked(run: seq<State>, b: nat, n: nat, t: nat, th: Thread) {
    exists m: nat, p: nat :: b < m < p < n && Discarding(run, m, t, th.target, th.data) && Unlinking(run, p, t, th.data)
  }

  ghost predicate Removal(run: seq<State>, b: nat, n: nat, t: nat, th: Thread)
    requires n < |run|
  {
    th.op == Remove && th.isMarked ==>
      Discarded(run, b, n, t, th) && (Over(th) ==> Unlinked(run, b, n, t, th) && Gone(run[n], th.target, th.data))
  }

  /** Each operation keeps to its own phases. */
  predicate OwnPhases(th: Thread) {
    && (th.phase in {AddCheckMarked, AddWaitLinked, CheckSucc, CreateNode, SetOwn, SetPred, SetLinked} ==> th.op == Add)
    && (th.phase in {GrowHeight, GrowLoad, GrowLock, GrowCopy, GrowCas, GrowMark} ==> th.op == Add)
    && (th.phase in {RemoveCheckLinked, RemoveCheckMarked, LockTarget, RecheckMarked, MarkTarget} ==>
          th.op == Remove && !th.isMarked)
    && (th.phase in {ReadTarget, UnlinkPred} ==> th.op == Remove && th.isMarked)
    && (th.phase == Release ==>
          th.next in {LoadHeight, Done, GrowHeight} && (th.next == GrowHeight ==> th.op == Add))
    && (th.phase in {AddCheckMarked, AddWaitLinked} ==> th.found > 0)
  }

  lemma {:induction false} PhasesAreOwn(s: State, t: nat)
    requires Known(s, t)
    ensures OwnPhases(s.threads[t])
  {
    hide NodeAt, SkipAt, Layers, LockOk, OldHead, PathFrom, FoundOk, Complete, Descending, Valid;
  }

  /** How a step of a remove moves it on. */
  ghost predicate RemovesOn(th: Thread, th': Thread) {
    th'.op == Remove && th'.isMarked ==>
      && th.op == Remove && th'.data == th.data && th'.target == th.target && (th.isMarked || th.phase == MarkTarget)
      && (Over(th') ==> Over(th) || (th.phase == UnlinkPred && th.layer == 0))
  }

  lemma {:induction false} SearchRemoves(s: State, th: Thread, choice: Choice)
    requires Searching(th.phase) && OwnPhases(th)
    ensures RemovesOn(th, SearchAction(s, th, choice).0)
  {
    hide NodeAt, SkipAt, At, Update;
  }

  lemma {:induction false} LockRemoves(s: State, t: nat, th: Thread)
    requires Locking(th.phase) && OwnPhases(th)
    ensures RemovesOn(th, LockAction(s, t, th).0)
  {
    hide NodeAt, SkipAt, At;
  }

  lemma {:induction false} ChangeRemoves(s: State, t: nat, th: Thread, choice: Choice)
    requires !Searching(th.phase) && !Locking(th.phase) && th.phase != Done && OwnPhases(th)
    ensures RemovesOn(th, ChangeAction(s, t, th, choice).0)
  {
    hide NodeAt, SkipAt, At, FreshNode;
  }

  lemma {:induction false} ActionRemoves(s: State, t: nat, th: Thread, choice: Choice)
    requires th.phase != Done && OwnPhases(th)
    ensures RemovesOn(th, Action(s, t, th, choice).0)
  {
    hide SearchAction, LockAction, ChangeAction, Searching, Locking, RemovesOn, OwnPhases;
    if Searching(th.phase) { SearchRemoves(s, th, choice); }
    else if Locking(th.phase) { LockRemoves(s, t, th); }
    else { ChangeRemoves(s, t, th, choice); }
  }

  /** The marking step. */
  lemma {:induction false} MarkStep(run: seq<State>, n: nat, t: nat, choice: Choice)
    requires Reachable(run) && Takes(run, n, t, choice) && Known(run[n], t) && run[n].threads[t].phase == MarkTarget
    ensures Discarding(run, n, t, run[n].threads[t].target, run[n].threads[t].data)
  {
    hide NodeAt, Reachable, Step, Known, Member, InLayer, Layers;
    var th := run[n].threads[t];
    MembersAreAtomic(run, n, t, choice, th.data);
    MemberTarget(run[n], t);
    KnownLayers(run[n], t);
    UnmarkedIsIn(run[n], th.target, 0);
    MarkIsSet(run[n], t, choice);
  }

  lemma {:induction false} MarkIsSet(s: State, t: nat, choice: Choice)
    requires t < |s.threads| && Known(s, t) && s.threads[t].phase == MarkTarget
    ensures NodeAt(Step(s, t, choice), s.threads[t].target).marked
  {
    hide NodeAt, SkipAt, Known, Layers, Step, Action;
    StepMoves(s, t, choice);
    MemberPhases(s, t, choice);
    var e := Action(s, t, s.threads[t], choice).1;
    MovedIsChange(s, Step(s, t, choice), t, choice);
    MarkedAfter(s, Step(s, t, choice), t, e);
  }

  lemma {:induction false} MarkedAfter(s: State, s': State, t: nat, e: Effect)
    requires Changed(s, s', t, e) && e.SetMarked?
    ensures NodeAt(s', e.x).marked
  {
    hide NodeAt, SkipAt, Layers;
  }

  /** The last unlinking step. */
  lemma {:induction false} UnlinkStep(run: seq<State>, n: nat, t: nat, choice: Choice)
    requires Reachable(run) && Takes(run, n, t, choice) && Known(run[n], t)
    requires run[n].threads[t].phase == UnlinkPred && run[n].threads[t].layer == 0
    ensures Unlinking(run, n, t, run[n].threads[t].data)
    ensures Gone(run[n + 1], run[n].threads[t].target, run[n].threads[t].data)
  {
    hide NodeAt, Reachable, Step, Known, HasKey, Gone;
    OperationsAreAtomic(run, n, t, choice, run[n].threads[t].data);
    NothingKept(run[n], t, choice);
  }

  lemma {:induction false} NothingKept(s: State, t: nat, choice: Choice)
    requires t < |s.threads| && Known(s, t) && s.threads[t].phase == UnlinkPred && s.threads[t].layer == 0
    ensures Gone(Step(s, t, choice), s.threads[t].target, s.threads[t].data)
  {
    hide NodeAt, SkipAt, Known, Layers, Step, Action, Gone;
    var th := s.threads[t];
    StepMoves(s, t, choice);
    LinkPhases(s, t, choice);
    var e := Action(s, t, th, choice).1;
    MovedIsChange(s, Step(s, t, choice), t, choice);
    TargetFacts(s, t);
    GoneAfter(s, Step(s, t, choice), t, e, th.data);
  }

  lemma {:induction false} TargetFacts(s: State, t: nat)
    requires Known(s, t) && s.threads[t].phase == UnlinkPred
    ensures var x := s.threads[t].target;
            x < |s.nodes| && NodeAt(s, x).key == s.threads[t].data && NodeAt(s, x).marked && !NodeAt(s, x).isHead
  {
    hide NodeAt, SkipAt, Layers, SearchOk, ValidOk, OwnNode, GrowOk, HeldOk, LockOk, OldHead;
  }

  lemma {:induction false} GoneAfter(s: State, s': State, t: nat, e: Effect, key: int)
    requires Changed(s, s', t, e) && e.Unlink? && e.k == 0 && e.y < |s.nodes| && !NodeAt(s, e.y).isHead
    requires NodeAt(s, e.y).key == key && NodeAt(s, e.y).marked
    ensures Gone(s', e.y, key)
  {
    hide NodeAt, SkipAt, Layers;
  }

  lemma {:induction false} GoneStays(s: State, s': State, x: nat, key: int)
    requires Follows(s, s') && Gone(s, x, key)
    ensures Gone(s', x, key)
  {
    hide NodeAt, SkipAt, Changed;
    var t, e := ChangeOf(s, s');
    NodeStays(s, s', x);
    GoneKept(s, s', t, e, x);
  }

  lemma {:induction false} GoneKept(s: State, s': State, t: nat, e: Effect, x: nat)
    requires Changed(s, s', t, e) && x < |s.nodes| && NodeAt(s, x).kept == 0
    ensures NodeAt(s', x).kept == 0
  {
    hide NodeAt, SkipAt, Layers, InLayer;
  }

  lemma {:induction false} OwnRemoval(run: seq<State>, b: nat, n: nat, t: nat, choice: Choice)
    requires Watched(run, b, n, t) && Takes(run, n, t, choice) && Follows(run[n], run[n + 1])
    requires run[n].threads[t].phase != Done && Removal(run, b, n, t, run[n].threads[t])
    ensures Removal(run, b, n + 1, t, Action(run[n], t, run[n].threads[t], choice).0)
  {
    hide NodeAt, Reachable, Known, History, Follows, Discarding, Unlinking, Gone, Action, Step;
    var th := run[n].threads[t];
    PhasesAreOwn(run[n], t);
    ActionRemoves(run[n], t, th, choice);
    if th.phase == MarkTarget { MarkStep(run, n, t, choice); }
    else if th.phase == UnlinkPred && th.layer == 0 { UnlinkStep(run, n, t, choice); }
    else if Over(th) && th.op == Remove && th.isMarked { GoneStays(run[n], run[n + 1], th.target, th.data); }
  }

  lemma {:induction false} RemovalStays(run: seq<State>, b: nat, n: nat, t: nat, th: Thread)
    requires n + 1 < |run| && Follows(run[n], run[n + 1]) && Removal(run, b, n, t, th)
    ensures Removal(run, b, n + 1, t, th)
  {
    hide NodeAt, Follows, Discarding, Unlinking, Gone;
    if Over(th) && th.op == Remove && th.isMarked { GoneStays(run[n], run[n + 1], th.target, th.data); }
  }

  // ---- What an add has done ----

  /** The height a new node gets when the environment wants this one and the list is so high. */
  function Drawn(wanted: nat, limit: nat): nat {
    if 1 <= wanted <= limit then wanted else 1
  }

  /** The height is the one drawn at the end of a search, for the height of the list when that search began. */
  ghost predicate HeightDrawn(run: seq<State>, b: nat, n: nat, t: nat, height: nat)
    requires n < |run|
  {
    exists r: nat, q: nat, choice :: b < r <= q < n && Takes(run, q, t, choice) &&
      height == Drawn(choice.height, NodeAt(run[r], run[r].head).height)
  }

  /** A new node is being made or linked. */
  predicate Building(phase: Phase) {
    phase in {LockPred, CheckPred, CheckLink, CheckSucc, CreateNode, SetOwn, SetPred, SetLinked}
  }

  /** The node has been linked at the bottom. */
  predicate Rising(th: Thread) {
    ((th.phase == SetOwn || th.phase == SetPred) && th.layer > 0) || th.phase == SetLinked
  }

  ghost predicate Linked(run: seq<State>, b: nat, n: nat, t: nat, key: int) {
    exists p: nat :: b < p < n && Linking(run, p, t, key)
  }

  /** An add that has completed its node. */
  predicate Finishing(th: Thread) {
    th.phase in {GrowHeight, GrowLoad, GrowLock, GrowCopy, GrowCas, GrowMark, Done} ||
        (th.phase == Release && th.next != LoadHeight)
  }

  function ListHeight(s: State): nat {
    NodeAt(s, s.head).height
  }

  /** How far the list has grown since it was this high. */
  ghost predicate GrownFrom(s: State, th: Thread, height: nat) {
    && ListHeight(s) >= height
    && match th.phase
       case Release => th.next == GrowHeight || ListHeight(s) > height
       case GrowHeight => true
       case GrowLoad => th.height > height
       case GrowLock => NodeAt(s, th.target).height > height && (s.head == th.oldHead || ListHeight(s) > height)
       case GrowCopy => NodeAt(s, th.target).height > height && (s.head == th.oldHead || ListHeight(s) > height)
       case GrowCas => NodeAt(s, th.target).height > height && (s.head == th.oldHead || ListHeight(s) > height)
       case _ => ListHeight(s) > height
  }

  /** The completing step, of a node x of that height that did not exist when the operation began, and what came of
      it. */
  ghost predicate Made(run: seq<State>, b: nat, m: nat, n: nat, t: nat, choice: Choice, x: nat, th: Thread)
    requires b <= m < n < |run|
  {
    && Takes(run, m, t, choice) && Completing(run, m, t, x, th.data) && Linked(run, b, m, t, th.data)
    && |run[b].nodes| <= x && HeightDrawn(run, b, m, t, NodeAt(run[m + 1], x).height)
    && (choice.grow ==> GrownFrom(run[n], th, ListHeight(run[m])))
  }

  ghost predicate HasMade(run: seq<State>, b: nat, n: nat, t: nat, th: Thread)
    requires n < |run|
  {
    exists m: nat, choice, x: nat :: b < m < n && Made(run, b, m, n, t, choice, x, th)
  }

  ghost predicate Addition(run: seq<State>, b: nat, n: nat, t: nat, th: Thread)
    requires b < n < |run|
  {
    th.op == Add ==>
      && (Building(th.phase) ==> HeightDrawn(run, b, n, t, th.height))
      && (th.phase in {SetOwn, SetPred, SetLinked} ==> |run[b].nodes| <= th.target)
      && (Rising(th) ==> Linked(run, b, n, t, th.data))
      && (th.found == 0 && Finishing(th) ==> HasMade(run, b, n, t, th))
  }

  /** How a step of an add moves it on. */
  ghost predicate AddsOn(s: State, th: Thread, choice: Choice, th': Thread) {
    th'.op == Add ==>
      && th.op == Add && th'.data == th.data
      && (Building(th'.phase) ==>
            if Building(th.phase) then th'.height == th.height
            else th.phase == ReadSkip && th'.height == Drawn(choice.height, th.top + 1))
      && (th'.phase in {SetOwn, SetPred, SetLinked} ==>
            if th.phase == CreateNode then th'.target == |s.nodes|
            else th.phase in {SetOwn, SetPred} && th'.target == th.target)
      && (Rising(th') ==> Rising(th) || (th.phase == SetPred && th.layer == 0))
      && (th'.found == 0 && Finishing(th') ==> (th.found == 0 && Finishing(th)) || th.phase == SetLinked)
  }

  lemma {:induction false} SearchAdds(s: State, th: Thread, choice: Choice)
    requires Searching(th.phase) && OwnPhases(th)
    ensures AddsOn(s, th, choice, SearchAction(s, th, choice).0)
  {
    hide NodeAt, SkipAt, At, Update;
  }

  lemma {:induction false} LockAdds(s: State, t: nat, th: Thread, choice: Choice)
    requires Locking(th.phase) && OwnPhases(th)
    ensures AddsOn(s, th, choice, LockAction(s, t, th).0)
  {
    hide NodeAt, SkipAt, At;
  }

  lemma {:induction false} ChangeAdds(s: State, t: nat, th: Thread, choice: Choice)
    requires !Searching(th.phase) && !Locking(th.phase) && th.phase != Done && OwnPhases(th)
    ensures AddsOn(s, th, choice, ChangeAction(s, t, th, choice).0)
  {
    hide NodeAt, SkipAt, At, FreshNode;
  }

  lemma {:induction false} ActionAdds(s: State, t: nat, th: Thread, choice: Choice)
    requires th.phase != Done && OwnPhases(th)
    ensures AddsOn(s, th, choice, Action(s, t, th, choice).0)
  {
    hide SearchAction, LockAction, ChangeAction, Searching, Locking, AddsOn, OwnPhases;
    if Searching(th.phase) { SearchAdds(s, th, choice); }
    else if Locking(th.phase) { LockAdds(s, t, th, choice); }
    else { ChangeAdds(s, t, th, choice); }
  }

  /** The step that links the new node at the bottom. */
  lemma {:induction false} LinkStep(run: seq<State>, n: nat, t: nat, choice: Choice)
    requires Reachable(run) && Takes(run, n, t, choice)
    requires run[n].threads[t].phase == SetPred && run[n].threads[t].layer == 0
    ensures Linking(run, n, t, run[n].threads[t].data)
  {
    hide NodeAt, Reachable, Step, HasKey;
    OperationsAreAtomic(run, n, t, choice, run[n].threads[t].data);
  }

  /** The step that completes it. */
  lemma {:induction false} CompleteStep(run: seq<State>, n: nat, t: nat, choice: Choice)
    requires Reachable(run) && Takes(run, n, t, choice) && Known(run[n], t) && run[n].threads[t].phase == SetLinked
    ensures var th := run[n].threads[t];
            Completing(run, n, t, th.target, th.data) && NodeAt(run[n + 1], th.target).height == th.height
  {
    hide NodeAt, Reachable, Step, Known, Member, IsMember, Layers, Action, Moved, Changed;
    var th := run[n].threads[t];
    MembersAreAtomic(run, n, t, choice, th.data);
    StepMoves(run[n], t, choice);
    MovedIsChange(run[n], run[n + 1], t, choice);
    MemberPhases(run[n], t, choice);
    MemberTarget(run[n], t);
    OwnHeight(run[n], t);
    CompletedIs(run[n], run[n + 1], t, Action(run[n], t, th, choice).1);
    FieldsKept(run[n], run[n + 1], t, choice, th.target);
  }

  lemma {:induction false} OwnHeight(s: State, t: nat)
    requires Known(s, t) && s.threads[t].phase == SetLinked
    ensures s.threads[t].target < |s.nodes| && NodeAt(s, s.threads[t].target).height == s.threads[t].height
  {
    hide NodeAt, SkipAt, Layers, SearchOk, ValidOk, TargetOk, GrowOk, HeldOk, LockOk, OldHead;
  }

  /** The list never becomes lower, and another head is a higher one. */
  lemma {:induction false} ListGrows(s: State, s': State)
    requires Follows(s, s')
    ensures ListHeight(s) <= ListHeight(s') && (s'.head != s.head ==> ListHeight(s) < ListHeight(s'))
  {
    hide NodeAt, SkipAt, Changed;
    var t, e := ChangeOf(s, s');
    ListGrowsBy(s, s', t, e);
  }

  lemma {:induction false} ListGrowsBy(s: State, s': State, t: nat, e: Effect)
    requires Changed(s, s', t, e)
    ensures ListHeight(s) <= ListHeight(s') && (s'.head != s.head ==> ListHeight(s) < ListHeight(s'))
    ensures |s.nodes| <= |s'.nodes|
  {
    hide NodeAt, SkipAt, LinkUp, LinkNext, KeyOnce, NodeShape, InLayer;
  }

  lemma {:induction false} NodesStay(run: seq<State>, m: nat, n: nat)
    requires Reachable(run) && m <= n < |run|
    ensures |run[m].nodes| <= |run[n].nodes|
    decreases n
  {
    hide NodeAt, Reachable, Follows, Layers, Changed;
    if m < n {
      NodesStay(run, m, n - 1);
      RunFollows(run, n - 1);
      var t, e := ChangeOf(run[n - 1], run[n]);
      ListGrowsBy(run[n - 1], run[n], t, e);
    }
  }

  /** What is known of a thread that makes the list grow. */
  lemma {:induction false} GrowerFacts(s: State, t: nat)
    requires Known(s, t)
    ensures var th := s.threads[t];
            && (th.phase in {GrowLock, GrowCopy, GrowCas} ==> th.target < |s.nodes|)
  {
    hide NodeAt, SkipAt, Layers, SearchOk, ValidOk, TargetOk, GrowOk, HeldOk, LockOk, OldHead;
  }

  /** A step of somebody else leaves the growth behind. */
  lemma {:induction false} GrowthStays(s: State, s': State, t: nat, height: nat)
    requires t < |s.threads| && Known(s, t) && Follows(s, s') && GrownFrom(s, s.threads[t], height)
    ensures GrownFrom(s', s.threads[t], height)
  {
    hide NodeAt, Known, Follows;
    var th := s.threads[t];
    GrowerFacts(s, t);
    ListGrows(s, s');
    if th.phase in {GrowLock, GrowCopy, GrowCas} { NodeStays(s, s', th.target); }
  }

  /** A step of the thread that makes the list grow. */
  lemma {:induction false} OwnGrowth(s: State, t: nat, choice: Choice, height: nat)
    requires Known(s, t) && t < |s.threads| && Follows(s, Step(s, t, choice))
    requires var th := s.threads[t]; th.phase != Done && Finishing(th) && GrownFrom(s, th, height)
    ensures GrownFrom(Step(s, t, choice), Action(s, t, s.threads[t], choice).0, height)
  {
    hide NodeAt, SkipAt, Known, Follows, Step;
    var th := s.threads[t];
    GrowerFacts(s, t);
    PhasesAreOwn(s, t);
    ListGrows(s, Step(s, t, choice));
    GrowEffect(s, t, choice);
    if th.phase in {GrowLock, GrowCopy, GrowCas} { NodeStays(s, Step(s, t, choice), th.target); }
  }

  lemma {:induction false} GrowEffect(s: State, t: nat, choice: Choice)
    requires Known(s, t) && t < |s.threads|
    ensures var s' := Step(s, t, choice); var th := s.threads[t];
            && (th.phase == GrowLoad && ListHeight(s) < th.height ==>
                  NodeAt(s', |s.nodes|).height == th.height && s'.head == s.head)
            && (th.phase in {GrowLock, GrowCopy} ==> s'.head == s.head)
            && (th.phase == GrowCas && s.head == th.oldHead ==> s'.head == th.target)
  {
    hide SkipAt, Layers, Facts, LockOk, OldHead;
  }

  /** The end of a search that goes on to lock draws the height. */
  lemma {:induction false} DrawStep(run: seq<State>, b: nat, n: nat, t: nat, choice: Choice)
    requires Watched(run, b, n, t) && Takes(run, n, t, choice) && run[n].threads[t].phase == ReadSkip
    ensures HeightDrawn(run, b, n + 1, t, Drawn(choice.height, run[n].threads[t].top + 1))
  {
    hide NodeAt, Reachable, Known, Visited, FoundSeen, AbsentSeen, NoMemberSeen, MemberSeen, UnmarkedSeen, Step;
    var top := run[n].threads[t].top;
    assert HeightSeen(run, b, n, top);
    var r: nat :| b < r <= n && NodeAt(run[r], run[r].head).height == top + 1;
  }

  lemma {:induction false} DrawnStays(run: seq<State>, b: nat, n: nat, t: nat, height: nat)
    requires n + 1 < |run| && HeightDrawn(run, b, n, t, height)
    ensures HeightDrawn(run, b, n + 1, t, height)
  {
    hide NodeAt, Takes, Drawn;
  }

  lemma {:induction false} MadeStays(run: seq<State>, b: nat, n: nat, t: nat)
    requires n + 1 < |run| && b < n && t < |run[n].threads| && Known(run[n], t) && Follows(run[n], run[n + 1])
    requires HasMade(run, b, n, t, run[n].threads[t])
    ensures HasMade(run, b, n + 1, t, run[n].threads[t])
  {
    hide NodeAt, Known, Follows, Takes, Completing, Linked, HeightDrawn, GrownFrom, ListHeight;
    var th := run[n].threads[t];
    var m: nat, choice, x: nat :| b < m < n && Made(run, b, m, n, t, choice, x, th);
    if choice.grow { GrowthStays(run[n], run[n + 1], t, ListHeight(run[m])); }
    assert Made(run, b, m, n + 1, t, choice, x, th);
  }

  lemma {:induction false} MadeOn(run: seq<State>, b: nat, n: nat, t: nat, choice: Choice)
    requires Watched(run, b, n, t) && Takes(run, n, t, choice) && Follows(run[n], run[n + 1])
    requires run[n].threads[t].phase != Done && Finishing(run[n].threads[t]) && HasMade(run, b, n, t, run[n].threads[t])
    requires Action(run[n], t, run[n].threads[t], choice).0.data == run[n].threads[t].data
    ensures HasMade(run, b, n + 1, t, Action(run[n], t, run[n].threads[t], choice).0)
  {
    hide NodeAt, Known, Follows, Completing, Linked, HeightDrawn, GrownFrom, ListHeight, Action, Step, Reachable,
         History, Finishing;
    var th := run[n].threads[t];
    var m: nat, c, x: nat :| b < m < n && Made(run, b, m, n, t, c, x, th);
    if c.grow { OwnGrowth(run[n], t, choice, ListHeight(run[m])); }
    assert Made(run, b, m, n + 1, t, c, x, Action(run[n], t, th, choice).0);
  }

  /** The completing step puts all of it on record. */
  lemma {:induction false} NowMade(run: seq<State>, b: nat, n: nat, t: nat, choice: Choice)
    requires Watched(run, b, n, t) && Takes(run, n, t, choice) && Follows(run[n], run[n + 1])
    requires run[n].threads[t].phase == SetLinked && Addition(run, b, n, t, run[n].threads[t])
    ensures HasMade(run, b, n + 1, t, Action(run[n], t, run[n].threads[t], choice).0)
  {
    hide NodeAt, Known, Follows, Completing, Linked, HeightDrawn, Step, Reachable, History, HasMade;
    var th := run[n].threads[t];
    PhasesAreOwn(run[n], t);
    CompleteStep(run, n, t, choice);
    ListGrows(run[n], run[n + 1]);
    assert Made(run, b, n, n + 1, t, choice, th.target, Action(run[n], t, th, choice).0);
    MadeByDefinition(run, b, n, t, choice, th.target, Action(run[n], t, th, choice).0);
  }

  lemma {:induction false} MadeByDefinition(run: seq<State>, b: nat, n: nat, t: nat, choice: Choice, x: nat, th: Thread)
    requires b < n && n + 1 < |run| && Made(run, b, n, n + 1, t, choice, x, th)
    ensures HasMade(run, b, n + 1, t, th)
  {
    hide Made;
  }

  lemma {:induction false} OwnAddition(run: seq<State>, b: nat, n: nat, t: nat, choice: Choice)
    requires Watched(run, b, n, t) && Takes(run, n, t, choice) && Follows(run[n], run[n + 1])
    requires run[n].threads[t].phase != Done && Addition(run, b, n, t, run[n].threads[t])
    ensures Addition(run, b, n + 1, t, Action(run[n], t, run[n].threads[t], choice).0)
  {
    hide NodeAt, Reachable, Known, History, Follows, Action, Step, HeightDrawn, Linked, HasMade, Drawn, OwnPhases;
    var th := run[n].threads[t];
    var th' := Action(run[n], t, th, choice).0;
    PhasesAreOwn(run[n], t);
    ActionAdds(run[n], t, th, choice);
    if th'.op == Add {
      if Building(th.phase) { DrawnStays(run, b, n, t, th.height); }
      if th.phase == ReadSkip { DrawStep(run, b, n, t, choice); }
      NodesStay(run, b, n);
      if Rising(th) { LinkedStays(run, b, n, t, th.data); }
      if th.phase == SetPred && th.layer == 0 { NowLinked(run, b, n, t, choice); }
      if th.phase == SetLinked { NowMade(run, b, n, t, choice); }
      if th.found == 0 && Finishing(th) { MadeOn(run, b, n, t, choice); }
    }
  }

  lemma {:induction false} LinkedStays(run: seq<State>, b: nat, n: nat, t: nat, key: int)
    requires Linked(run, b, n, t, key)
    ensures Linked(run, b, n + 1, t, key)
  {
    hide Linking;
  }

  lemma {:induction false} NowLinked(run: seq<State>, b: nat, n: nat, t: nat, choice: Choice)
    requires Reachable(run) && Takes(run, n, t, choice) && b < n
    requires run[n].threads[t].phase == SetPred && run[n].threads[t].layer == 0
    ensures Linked(run, b, n + 1, t, run[n].threads[t].data)
  {
    hide Reachable, Takes, Linking;
    LinkStep(run, n, t, choice);
  }

  lemma {:induction false} AdditionStays(run: seq<State>, b: nat, n: nat, t: nat)
    requires n + 1 < |run| && b < n && t < |run[n].threads| && Known(run[n], t) && Follows(run[n], run[n + 1])
    requires Addition(run, b, n, t, run[n].threads[t])
    ensures Addition(run, b, n + 1, t, run[n].threads[t])
  {
    hide NodeAt, Known, Follows, HeightDrawn, Linked, HasMade;
    var th := run[n].threads[t];
    if th.op == Add {
      if Building(th.phase) { DrawnStays(run, b, n, t, th.height); }
      if Rising(th) { LinkedStays(run, b, n, t, th.data); }
      if th.found == 0 && Finishing(th) { MadeStays(run, b, n, t); }
    }
  }

  // ---- Whole operations ----

  lemma {:induction false} OperationRecord(run: seq<State>, b: nat, n: nat, t: nat)
    requires Reachable(run) && Running(run, b, n, t) && b + 1 < n < |run|
    ensures t < |run[n].threads| && Removal(run, b, n, t, run[n].threads[t])
    ensures Addition(run, b, n, t, run[n].threads[t])
    decreases n
  {
    hide Inv, Init, Step, Known, History, Action, Moved, Follows, Removal, Addition;
    assert Next(run[n - 1], run[n]);
    var u: nat, choice :| u < |run[n - 1].threads| && run[n] == Step(run[n - 1], u, choice);
    SameThreads(run[n - 1], u, choice);
    if n - 1 == b + 1 {
      FirstRecord(run, b, t);
      FirstHistory(run, b, t);
    } else {
      OperationRecord(run, b, n - 1, t);
      OperationHistory(run, b, n - 1, t);
    }
    RunKeepsInv(run, n - 1);
    InvKnown(run[n - 1], t);
    RunFollows(run, n - 1);
    if u == t {
      OwnRemoval(run, b, n - 1, t, choice);
      OwnAddition(run, b, n - 1, t, choice);
    } else {
      RemovalStays(run, b, n - 1, t, run[n - 1].threads[t]);
      AdditionStays(run, b, n - 1, t);
    }
  }

  lemma {:induction false} FirstRecord(run: seq<State>, b: nat, t: nat)
    requires Reachable(run) && b + 1 < |run| && t < |run[b].threads| && run[b].threads[t].phase == Done
    requires t < |run[b + 1].threads| && run[b + 1].threads[t].phase != Done
    ensures Removal(run, b, b + 1, t, run[b + 1].threads[t]) && Addition(run, b, b + 1, t, run[b + 1].threads[t])
  {
    hide Inv, Init, Step, SearchAction, LockAction, ChangeAction;
    assert Next(run[b], run[b + 1]);
    var u: nat, choice :| u < |run[b].threads| && run[b + 1] == Step(run[b], u, choice);
    SameThreads(run[b], u, choice);
  }

  /** A remove that returns false, which is one that has marked nothing, has overlapped a moment at which the key was no
      member. One that returns true has in one step of its own ended the membership of the key, by marking its node, and
      in a later one taken the key out of the bottom layer; when it returns, the node is in no layer. */
  lemma {:induction false} RemoveIsJustified(run: seq<State>, b: nat, n: nat, t: nat)
    requires Reachable(run) && Operation(run, b, n, t) && run[n].threads[t].op == Remove
    ensures var th := run[n].threads[t];
            if !th.isMarked then exists m: nat :: b < m <= n && !Member(run[m], th.data)
            else
              && (exists m: nat, p: nat :: b < m < p < n && Discarding(run, m, t, th.target, th.data) &&
                    Unlinking(run, p, t, th.data))
              && NodeAt(run[n], th.target).key == th.data && forall k: nat :: !InLayer(run[n], th.target, k)
  {
    hide Reachable, Member, Discarding, Unlinking, Visited, Passed, Addition;
    OperationHistory(run, b, n, t);
    OperationRecord(run, b, n, t);
  }

  /** The node is linked at each layer up to its height. */
  ghost predicate InAllLayers(s: State, x: nat) {
    forall k: nat :: k < NodeAt(s, x).height ==> InLayer(s, x, k)
  }

  /** Thread t has linked the key after state p and completed its new node x after state m. */
  ghost predicate Adding(run: seq<State>, b: nat, p: nat, m: nat, n: nat, t: nat, x: nat, key: int)
    requires b < p < m < n < |run|
  {
    && Linking(run, p, t, key) && Completing(run, m, t, x, key) && InAllLayers(run[m + 1], x)
    && |run[b].nodes| <= x && HeightDrawn(run, b, m, t, NodeAt(run[m + 1], x).height)
    && exists choice :: Takes(run, m, t, choice) && (choice.grow ==> ListHeight(run[n]) > ListHeight(run[m]))
  }

  lemma {:induction false} NewNodeIsIn(run: seq<State>, m: nat, t: nat, x: nat, key: int)
    requires Reachable(run) && m + 1 < |run| && Completing(run, m, t, x, key)
    ensures InAllLayers(run[m + 1], x)
  {
    hide NodeAt, Reachable, TakesStep, IsMember, InLayer, Member, Layers;
    RunKeepsLayers(run, m + 1);
    var s := run[m + 1];
    forall k: nat | k < NodeAt(s, x).height
      ensures InLayer(s, x, k)
    {
      MemberIsIn(s, x, key, k);
    }
  }

  lemma {:induction false} MadeIsAdded(run: seq<State>, b: nat, n: nat, t: nat, th: Thread)
    requires Reachable(run) && b < n < |run| && HasMade(run, b, n, t, th) && th.phase == Done
    ensures exists p: nat, m: nat, x: nat :: b < p < m < n && Adding(run, b, p, m, n, t, x, th.data)
  {
    hide NodeAt, Reachable, Takes, Completing, Linking, HeightDrawn, InAllLayers, ListHeight;
    var m: nat, choice, x: nat :| b < m < n && Made(run, b, m, n, t, choice, x, th);
    var p: nat :| b < p < m && Linking(run, p, t, th.data);
    NewNodeIsIn(run, m, t, x, th.data);
    assert Takes(run, m, t, choice) && (choice.grow ==> ListHeight(run[n]) > ListHeight(run[m]));
    assert Adding(run, b, p, m, n, t, x, th.data);
  }

  /** An add that returns a node it has found has overlapped a moment at which that node was the member of its key. One
      that returns a new node has in one step of its own put the key into the bottom layer, and in a later one made it a
      member, with a node that is new, is in as many layers as were drawn, and made the list grow if asked to. */
  lemma {:induction false} AddIsJustified(run: seq<State>, b: nat, n: nat, t: nat)
    requires Reachable(run) && Operation(run, b, n, t) && run[n].threads[t].op == Add
    ensures var th := run[n].threads[t];
            if th.found > 0 then exists m: nat :: b < m <= n && IsMember(run[m], th.foundNode, th.data)
            else exists p: nat, m: nat, x: nat :: b < p < m < n && Adding(run, b, p, m, n, t, x, th.data)
  {
    hide Reachable, IsMember, Visited, Passed, Removal, HasMade, Linked, HeightDrawn, Adding;
    OperationHistory(run, b, n, t);
    OperationRecord(run, b, n, t);
    if run[n].threads[t].found == 0 { MadeIsAdded(run, b, n, t, run[n].threads[t]); }
  }
}
