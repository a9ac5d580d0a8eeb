/** What a thread has seen while an operation ran: a failed remove has overlapped a moment at which its key was no
    member, and an add that found its key already there one at which it was. */
module SkipListHistory {
  import opened Wrappers
  import opened SkipList
  import opened SkipListLayers
  import opened SkipListThreads
  import opened SkipListSafety
  import opened SkipListMembers

  // ---- One step ----

  /** Every step changes the memory in an allowed way. */
  ghost predicate Follows(s: State, s': State) {
    exists t: nat, choice :: Moved(s, s', t, choice)
  }

  lemma {:induction false} RunFollows(run: seq<State>, n: nat)
    requires Reachable(run) && n + 1 < |run|
    ensures Follows(run[n], run[n + 1]) && Layers(run[n]) && Layers(run[n + 1])
  {
    hide Inv, Init, Step, Moved, Layers, Known;
    RunKeepsInv(run, n);
    RunKeepsLayers(run, n);
    RunKeepsLayers(run, n + 1);
    assert Next(run[n], run[n + 1]);
    var t: nat, choice :| t < |run[n].threads| && run[n + 1] == Step(run[n], t, choice);
    InvKnown(run[n], t);
    StepMoves(run[n], t, choice);
  }

  lemma {:induction false} ChangeOf(s: State, s': State) returns (t: nat, e: Effect)
    requires Follows(s, s')
    ensures Changed(s, s', t, e)
  {
    hide Changed, Action;
    var u: nat, choice :| Moved(s, s', u, choice);
    return u, Action(s, u, s.threads[u], choice).1;
  }

  /** The link of a node that is not in the layer any more, or is leaving it, does not change. */
  lemma {:induction false} LinkFrozen(s: State, s': State, x: nat, k: nat)
    requires Follows(s, s') && EverLinked(s, x, k) && (InLayer(s, x, k) ==> !InLayer(s', x, k))
    ensures SkipAt(s', x, k) == SkipAt(s, x, k)
  {
    hide NodeAt, SkipAt, InLayer, Changed;
    var t, e := ChangeOf(s, s');
    FrozenBy(s, s', t, e, x, k);
  }

  lemma {:induction false} FrozenBy(s: State, s': State, t: nat, e: Effect, x: nat, k: nat)
    requires Changed(s, s', t, e) && EverLinked(s, x, k) && (InLayer(s, x, k) ==> !InLayer(s', x, k))
    ensures SkipAt(s', x, k) == SkipAt(s, x, k)
  {
    hide NodeAt, SkipAt, LinkUp, LinkNext, KeyOnce, NodeShape, InLayer;
    if InLayer(s, x, k) { Left(s, s', t, e, x, k); }
  }

  /** What every step keeps of a node. */
  lemma {:induction false} NodeStays(s: State, s': State, x: nat)
    requires Follows(s, s') && x < |s.nodes|
    ensures x < |s'.nodes| && NodeAt(s', x).key == NodeAt(s, x).key && NodeAt(s', x).isHead == NodeAt(s, x).isHead
    ensures NodeAt(s', x).height == NodeAt(s, x).height && NodeAt(s, x).links <= NodeAt(s', x).links
    ensures NodeAt(s, x).marked ==> NodeAt(s', x).marked
  {
    hide NodeAt, Moved;
    var t: nat, choice :| Moved(s, s', t, choice);
    FieldsKept(s, s', t, choice, x);
  }

  /** A node that leaves the bottom layer is marked. */
  lemma {:induction false} LeavingIsMarked(s: State, s': State, x: nat)
    requires Follows(s, s') && InLayer(s, x, 0) && !InLayer(s', x, 0) && !NodeAt(s, x).isHead
    ensures NodeAt(s, x).marked
  {
    hide NodeAt, SkipAt, InLayer, Changed;
    var t, e := ChangeOf(s, s');
    Left(s, s', t, e, x, 0);
    HeadNoUnlink(s, s', t, e, x);
  }

  lemma {:induction false} HeadNoUnlink(s: State, s': State, t: nat, e: Effect, x: nat)
    requires Changed(s, s', t, e) && !NodeAt(s, x).isHead && ((e.Unlink? && e.y == x) || (e.SetHead? && x == s.head))
    ensures NodeAt(s, x).marked
  {
    hide NodeAt, SkipAt, LinkUp, LinkNext, KeyOnce, NodeShape, InLayer;
  }

  /** A node that enters the bottom layer has a key that was not in it. */
  lemma {:induction false} EnteringIsNew(s: State, s': State, x: nat)
    requires Follows(s, s') && !InLayer(s, x, 0) && InLayer(s', x, 0) && !NodeAt(s', x).isHead
    ensures !HasKey(s, NodeAt(s', x).key)
  {
    hide NodeAt, SkipAt, InLayer, Changed, HasKey;
    var t, e := ChangeOf(s, s');
    Entered(s, s', t, e, x, 0);
    SameKeys(s, s', t, e, x, x);
    if e.Link? { LinkAddsKey(s, s', t, e); }
  }

  /** A node is unmarked when it is completed. */
  lemma {:induction false} CompletedUnmarked(s: State, s': State, x: nat)
    requires Follows(s, s') && !NodeAt(s, x).isHead && x < |s.nodes| && !NodeAt(s, x).fullyLinked &&
             NodeAt(s', x).fullyLinked
    ensures !NodeAt(s', x).marked && !NodeAt(s', x).isHead
  {
    hide NodeAt, SkipAt, InLayer, Changed;
    var t, e := ChangeOf(s, s');
    CompletedBy(s, s', t, e, x);
  }

  lemma {:induction false} CompletedBy(s: State, s': State, t: nat, e: Effect, x: nat)
    requires Changed(s, s', t, e) && !NodeAt(s, x).isHead && x < |s.nodes| && !NodeAt(s, x).fullyLinked &&
             NodeAt(s', x).fullyLinked
    ensures !NodeAt(s', x).marked && !NodeAt(s', x).isHead
  {
    hide NodeAt, SkipAt, LinkUp, LinkNext, KeyOnce, InLayer;
    assert NodeShape(s, x);
  }

  // ---- Looking back along the run ----

  lemma {:induction false} NodeStaysInRun(run: seq<State>, m: nat, n: nat, x: nat)
    requires Reachable(run) && m <= n < |run| && x < |run[m].nodes|
    ensures x < |run[n].nodes| && NodeAt(run[n], x).key == NodeAt(run[m], x).key &&
            NodeAt(run[n], x).isHead == NodeAt(run[m], x).isHead
    ensures NodeAt(run[n], x).height == NodeAt(run[m], x).height && NodeAt(run[m], x).links <= NodeAt(run[n], x).links
    decreases n
  {
    hide NodeAt, Reachable, Follows, Layers;
    if m < n {
      NodeStaysInRun(run, m, n - 1, x);
      RunFollows(run, n - 1);
      NodeStays(run[n - 1], run[n], x);
    }
  }

  /** The link one sees at a node is the one it had when it was last in the layer. */
  lemma {:induction false} Hindsight(run: seq<State>, m0: nat, n: nat, x: nat, k: nat)
    requires Reachable(run) && m0 <= n < |run| && InLayer(run[m0], x, k)
    ensures exists m: nat :: m0 <= m <= n && InLayer(run[m], x, k) && SkipAt(run[m], x, k) == SkipAt(run[n], x, k)
    decreases n
  {
    hide NodeAt, SkipAt, Reachable, Follows, Layers, InLayer;
    if !InLayer(run[n], x, k) {
      Hindsight(run, m0, n - 1, x, k);
      RunFollows(run, n - 1);
      InRange(run[m0], x, k);
      NodeStaysInRun(run, m0, n - 1, x);
      LinkFrozen(run[n - 1], run[n], x, k);
    }
  }

  /** A node that has left the bottom layer was marked in it. */
  lemma {:induction false} MarkedBeforeLeaving(run: seq<State>, m0: nat, n: nat, x: nat)
    requires Reachable(run) && m0 <= n < |run| && InLayer(run[m0], x, 0) && !NodeAt(run[m0], x).isHead &&
             !InLayer(run[n], x, 0)
    ensures exists m: nat :: m0 <= m <= n && InLayer(run[m], x, 0) && NodeAt(run[m], x).marked
    decreases n
  {
    hide NodeAt, SkipAt, Reachable, Follows, Layers, InLayer;
    RunFollows(run, n - 1);
    if InLayer(run[n - 1], x, 0) {
      InRange(run[m0], x, 0);
      NodeStaysInRun(run, m0, n - 1, x);
      LeavingIsMarked(run[n - 1], run[n], x);
    } else {
      MarkedBeforeLeaving(run, m0, n - 1, x);
    }
  }

  /** Between two different nodes of a key there is a moment without it. */
  lemma {:induction false} Gap(run: seq<State>, m: nat, y: nat, n: nat, x: nat, key: int)
    requires Reachable(run) && m <= n < |run| && x != y
    requires InLayer(run[m], y, 0) && !NodeAt(run[m], y).isHead && NodeAt(run[m], y).key == key
    requires InLayer(run[n], x, 0) && !NodeAt(run[n], x).isHead && NodeAt(run[n], x).key == key
    ensures exists i: nat :: m <= i <= n && !HasKey(run[i], key)
    decreases n
  {
    hide NodeAt, SkipAt, Reachable, Follows, Layers, InLayer, HasKey;
    if m == n {
      RunKeepsLayers(run, n);
      SameNodeOfKey(run[n], x, y);
    } else {
      RunFollows(run, n - 1);
      if InLayer(run[n - 1], x, 0) {
        InRange(run[n - 1], x, 0);
        NodeStays(run[n - 1], run[n], x);
        Gap(run, m, y, n - 1, x, key);
      } else {
        EnteringIsNew(run[n - 1], run[n], x);
      }
    }
  }

  /** A node that was seen unmarked and is seen complete has been a member. */
  lemma {:induction false} SeenComplete(run: seq<State>, m: nat, n: nat, x: nat, key: int)
    requires Reachable(run) && m <= n < |run|
    requires EverLinked(run[m], x, 0) && !NodeAt(run[m], x).isHead && NodeAt(run[m], x).key == key &&
             !NodeAt(run[m], x).marked
    requires NodeAt(run[n], x).fullyLinked
    ensures exists i: nat :: m <= i <= n && IsMember(run[i], x, key)
    decreases n
  {
    hide NodeAt, SkipAt, Reachable, Follows, Layers, InLayer;
    LinkedInRange(run[m], x);
    NodeStaysInRun(run, m, n, x);
    if NodeAt(run[m], x).fullyLinked {
      RunKeepsLayers(run, m);
      UnmarkedIsIn(run[m], x, 0);
      assert IsMember(run[m], x, key);
    } else if m < n {
      NodeStaysInRun(run, m, n - 1, x);
      if NodeAt(run[n - 1], x).fullyLinked {
        SeenComplete(run, m, n - 1, x, key);
      } else {
        RunFollows(run, n - 1);
        CompletedUnmarked(run[n - 1], run[n], x);
        UnmarkedIsIn(run[n], x, 0);
        assert IsMember(run[n], x, key);
      }
    }
  }

  // ---- What a search has seen, between states b and n ----

  ghost predicate Visited(run: seq<State>, b: nat, n: nat, x: nat, k: nat)
    requires n < |run|
  {
    exists m: nat :: b < m <= n && InLayer(run[m], x, k)
  }

  ghost predicate AbsentAt(s: State, key: int, k: nat) {
    forall z: nat :: InLayer(s, z, k) && !NodeAt(s, z).isHead ==> NodeAt(s, z).key != key
  }

  ghost predicate AbsentSeen(run: seq<State>, b: nat, n: nat, key: int, k: nat)
    requires n < |run|
  {
    exists m: nat :: b < m <= n && AbsentAt(run[m], key, k)
  }

  /** The head was as high as the search took it to be. */
  ghost predicate HeightSeen(run: seq<State>, b: nat, n: nat, top: nat)
    requires n < |run|
  {
    exists m: nat :: b < m <= n && NodeAt(run[m], run[m].head).height == top + 1
  }

  ghost predicate UnmarkedSeen(run: seq<State>, b: nat, n: nat, x: nat, key: int)
    requires n < |run|
  {
    exists m: nat :: b < m <= n && EverLinked(run[m], x, 0) && !NodeAt(run[m], x).isHead &&
        NodeAt(run[m], x).key == key && !NodeAt(run[m], x).marked
  }

  ghost predicate NoMemberSeen(run: seq<State>, b: nat, n: nat, key: int)
    requires n < |run|
  {
    exists m: nat :: b < m <= n && !Member(run[m], key)
  }

  ghost predicate MemberSeen(run: seq<State>, b: nat, n: nat, x: nat, key: int)
    requires n < |run|
  {
    exists m: nat :: b < m <= n && IsMember(run[m], x, key)
  }

  /** The key was absent from the layers from lo up. */
  ghost predicate Passed(run: seq<State>, b: nat, n: nat, key: int, top: nat, lo: nat)
    requires n < |run|
  {
    HeightSeen(run, b, n, top) && forall j: nat :: lo <= j <= top ==> AbsentSeen(run, b, n, key, j)
  }

  ghost predicate FoundSeen(run: seq<State>, b: nat, n: nat, found: nat, x: nat)
    requires n < |run|
  {
    found > 0 ==> Visited(run, b, n, x, found - 1)
  }

  /** What the operation of a thread has seen, by its phase. */
  ghost predicate History(run: seq<State>, b: nat, n: nat, th: Thread)
    requires n < |run|
  {
    && (th.phase == LoadHead ==> HeightSeen(run, b, n, th.top))
    && (th.phase == ReadSkip ==>
          && Visited(run, b, n, th.pred, th.layer) && FoundSeen(run, b, n, th.found, th.foundNode)
          && Passed(run, b, n, th.data, th.top, if th.found == 0 then th.layer + 1 else th.found))
    && (th.phase in {AddCheckMarked, RemoveCheckLinked, RemoveCheckMarked} ==>
          FoundSeen(run, b, n, th.found, th.foundNode) && Passed(run, b, n, th.data, th.top, th.found))
    && (th.phase == AddWaitLinked ==> UnmarkedSeen(run, b, n, th.foundNode, th.data))
    && (th.phase in {LockTarget, RecheckMarked} ==> Visited(run, b, n, th.target, 0))
    && (th.op == Remove && !th.isMarked && (th.phase == Release || th.phase == Done) ==>
        NoMemberSeen(run, b, n, th.data))
    && (th.op == Add && !Searching(th.phase) ==>
          th.found == 0 || (th.phase == Done && MemberSeen(run, b, n, th.foundNode, th.data)))
  }

  /** Time only adds to it. */
  lemma {:induction false} HistoryStays(run: seq<State>, b: nat, n: nat, th: Thread)
    requires n + 1 < |run| && History(run, b, n, th)
    ensures History(run, b, n + 1, th)
  {
    hide NodeAt, InLayer, AbsentAt, Member, EverLinked, Searching, HeightSeen, Passed;
    HeightStays(run, b, n, th.top);
    PassedStays(run, b, n, th.data, th.top, th.found);
    PassedStays(run, b, n, th.data, th.top, th.layer + 1);
  }

  lemma {:induction false} PassedStays(run: seq<State>, b: nat, n: nat, key: int, top: nat, lo: nat)
    requires n + 1 < |run|
    ensures Passed(run, b, n, key, top, lo) ==> Passed(run, b, n + 1, key, top, lo)
  {
    hide AbsentSeen, HeightSeen;
    if Passed(run, b, n, key, top, lo) {
      HeightStays(run, b, n, top);
      var later := n + 1;
      forall j: nat | lo <= j <= top
        ensures AbsentSeen(run, b, later, key, j)
      {
        AbsentStays(run, b, n, key, j);
      }
    }
  }

  lemma {:induction false} HeightStays(run: seq<State>, b: nat, n: nat, top: nat)
    requires n + 1 < |run|
    ensures HeightSeen(run, b, n, top) ==> HeightSeen(run, b, n + 1, top)
  {
    hide NodeAt;
  }

  lemma {:induction false} AbsentStays(run: seq<State>, b: nat, n: nat, key: int, k: nat)
    requires n + 1 < |run| && AbsentSeen(run, b, n, key, k)
    ensures AbsentSeen(run, b, n + 1, key, k)
  {
    hide AbsentAt;
  }

  // ---- Reading a link ----

  /** From a node of the layer below the key, a link past the key means that the layer does not have it. */
  lemma {:induction false} NothingHere(s: State, x: nat, k: nat, key: int)
    requires Layers(s) && InLayer(s, x, k) && BelowKey(s, x, key)
    requires SkipAt(s, x, k) == NIL || NodeAt(s, SkipAt(s, x, k)).key > key
    ensures AbsentAt(s, key, k)
  {
    hide NodeAt, SkipAt, InLayer, KeyOnce, NodeShape, EverLinked;
    InRange(s, x, k);
    assert LinkNext(s, x, k);
    assert LinkUp(s, x, k);
    forall z: nat | InLayer(s, z, k) && !NodeAt(s, z).isHead
      ensures NodeAt(s, z).key != key
    {
      assert NodeAt(s, z).key == key ==> Below(s, x, z);
    }
  }

  lemma {:induction false} NextVisited(run: seq<State>, b: nat, n: nat, x: nat, k: nat)
    requires Reachable(run) && b < n < |run| && Visited(run, b, n, x, k) && SkipAt(run[n], x, k) != NIL
    ensures Visited(run, b, n, SkipAt(run[n], x, k), k)
  {
    hide NodeAt, SkipAt, InLayer, Reachable, KeyOnce, NodeShape, LinkUp;
    var m0: nat :| b < m0 <= n && InLayer(run[m0], x, k);
    Hindsight(run, m0, n, x, k);
    var m: nat :| m0 <= m <= n && InLayer(run[m], x, k) && SkipAt(run[m], x, k) == SkipAt(run[n], x, k);
    RunKeepsLayers(run, m);
    assert LinkNext(run[m], x, k);
  }

  lemma {:induction false} PastIsAbsent(run: seq<State>, b: nat, n: nat, x: nat, k: nat, key: int)
    requires Reachable(run) && b < n < |run| && Visited(run, b, n, x, k) && BelowKey(run[n], x, key)
    requires SkipAt(run[n], x, k) == NIL || NodeAt(run[n], SkipAt(run[n], x, k)).key > key
    ensures AbsentSeen(run, b, n, key, k)
  {
    hide NodeAt, SkipAt, InLayer, Reachable, KeyOnce, NodeShape, LinkUp, AbsentAt;
    var m0: nat :| b < m0 <= n && InLayer(run[m0], x, k);
    Hindsight(run, m0, n, x, k);
    var m: nat :| m0 <= m <= n && InLayer(run[m], x, k) && SkipAt(run[m], x, k) == SkipAt(run[n], x, k);
    RunKeepsLayers(run, m);
    InRange(run[m], x, k);
    NodeStaysInRun(run, m, n, x);
    var y := SkipAt(run[m], x, k);
    if y != NIL {
      assert LinkNext(run[m], x, k);
      InRange(run[m], y, k);
      NodeStaysInRun(run, m, n, y);
    }
    NothingHere(run[m], x, k, key);
  }

  // ---- When a remove fails ----

  lemma {:induction false} AbsentNoMember(s: State, key: int)
    requires AbsentAt(s, key, 0)
    ensures !Member(s, key)
  {
    hide NodeAt, InLayer;
  }

  /** A node of the key, seen in the bottom layer, is marked. */
  lemma {:induction false} MarkedSeen(run: seq<State>, b: nat, n: nat, x: nat, key: int)
    requires Reachable(run) && b < n < |run| && Visited(run, b, n, x, 0)
    requires !NodeAt(run[n], x).isHead && NodeAt(run[n], x).key == key && NodeAt(run[n], x).marked
    ensures NoMemberSeen(run, b, n, key)
  {
    hide NodeAt, SkipAt, InLayer, Reachable, Layers, Member;
    var m0: nat :| b < m0 <= n && InLayer(run[m0], x, 0);
    InRange(run[m0], x, 0);
    NodeStaysInRun(run, m0, n, x);
    RunKeepsLayers(run, n);
    if InLayer(run[n], x, 0) {
      OtherwiseNoMember(run[n], x, key);
    } else {
      MarkedBeforeLeaving(run, m0, n, x);
      var m: nat :| m0 <= m <= n && InLayer(run[m], x, 0) && NodeAt(run[m], x).marked;
      NodeStaysInRun(run, m0, m, x);
      RunKeepsLayers(run, m);
      OtherwiseNoMember(run[m], x, key);
    }
  }

  /** A node of the key is not complete. */
  lemma {:induction false} IncompleteSeen(run: seq<State>, b: nat, n: nat, x: nat, key: int)
    requires Reachable(run) && b < n < |run| && EverLinked(run[n], x, 0)
    requires !NodeAt(run[n], x).isHead && NodeAt(run[n], x).key == key && !NodeAt(run[n], x).fullyLinked
    ensures NoMemberSeen(run, b, n, key)
  {
    hide NodeAt, SkipAt, InLayer, Reachable, Layers, Member, EverLinked;
    RunKeepsLayers(run, n);
    IncompleteIsIn(run[n], x, 0);
    OtherwiseNoMember(run[n], x, key);
  }

  /** A complete node was met below its top layer: when that layer was passed, it was not complete yet. */
  lemma {:induction false} LateSeen(run: seq<State>, b: nat, n: nat, x: nat, th: Thread)
    requires Reachable(run) && b < n < |run| && Visited(run, b, n, x, 0) && Passed(run, b, n, th.data, th.top, th.found)
    requires !NodeAt(run[n], x).isHead && NodeAt(run[n], x).key == th.data && NodeAt(run[n], x).height > th.found
    ensures NoMemberSeen(run, b, n, th.data)
  {
    hide NodeAt, SkipAt, InLayer, Reachable, Layers, Member;
    var h := NodeAt(run[n], x).height;
    var m: nat;
    if h - 1 <= th.top {
      assert AbsentSeen(run, b, n, th.data, h - 1);
      m :| b < m <= n && AbsentAt(run[m], th.data, h - 1);
    } else {
      m :| b < m <= n && NodeAt(run[m], run[m].head).height == th.top + 1;
    }
    if Member(run[m], th.data) {
      RunKeepsLayers(run, m);
      var y := MemberOf(run[m], th.data);
      InRange(run[m], y, 0);
      NodeStaysInRun(run, m, n, y);
      if y == x {
        MemberIsIn(run[m], x, th.data, h - 1);
        assert false;
      }
      OtherSeen(run, b, n, m, y, x, th.data);
    }
  }

  lemma {:induction false} MemberOf(s: State, key: int) returns (y: nat)
    requires Member(s, key)
    ensures IsMember(s, y, key) && InLayer(s, y, 0)
  {
    hide NodeAt, InLayer;
    y :| IsMember(s, y, key);
  }

  /** Another node of the key was there once. */
  lemma {:induction false} OtherSeen(run: seq<State>, b: nat, n: nat, m: nat, y: nat, x: nat, key: int)
    requires Reachable(run) && b < m <= n < |run| && Visited(run, b, n, x, 0) && y != x
    requires !NodeAt(run[n], x).isHead && NodeAt(run[n], x).key == key
    requires InLayer(run[m], y, 0) && !NodeAt(run[m], y).isHead && NodeAt(run[m], y).key == key
    ensures NoMemberSeen(run, b, n, key)
  {
    hide NodeAt, SkipAt, InLayer, Reachable, Layers, Member, HasKey;
    var i: nat :| b < i <= n && InLayer(run[i], x, 0);
    InRange(run[i], x, 0);
    NodeStaysInRun(run, i, n, x);
    var j: nat;
    if m <= i {
      Gap(run, m, y, i, x, key);
      j :| m <= j <= i && !HasKey(run[j], key);
    } else {
      Gap(run, i, x, m, y, key);
      j :| i <= j <= m && !HasKey(run[j], key);
    }
    NoKeyNoMember(run[j], key);
  }

  // ---- The thread's own steps ----

  ghost predicate Watched(run: seq<State>, b: nat, n: nat, t: nat) {
    && Reachable(run) && b < n < |run| && t < |run[n].threads| && Known(run[n], t)
    && History(run, b, n, run[n].threads[t])
  }

  lemma {:induction false} AtLoad(run: seq<State>, b: nat, n: nat, t: nat, choice: Choice)
    requires Watched(run, b, n, t) && run[n].threads[t].phase in {LoadHeight, LoadHead}
    ensures History(run, b, n, Action(run[n], t, run[n].threads[t], choice).0)
  {
    hide NodeAt, SkipAt, Reachable, Layers, InLayer, TargetOk, ValidOk, OwnNode, GrowOk, HeldOk, PathFrom, FoundOk,
         LockOk, OldHead;
    KnownLayers(run[n], t);
    NilIsNoHead(run[n]);
    if run[n].threads[t].phase == LoadHead { HeadIn(run[n], run[n].threads[t].top); }
  }

  /** Moving on along the layer. */
  lemma {:induction false} AtMove(run: seq<State>, b: nat, n: nat, t: nat, choice: Choice)
    requires Watched(run, b, n, t) && run[n].threads[t].phase == ReadSkip
    requires var th := run[n].threads[t]; var y := SkipAt(run[n], th.pred, th.layer);
             y != NIL && NodeAt(run[n], y).key < th.data
    ensures History(run, b, n, Action(run[n], t, run[n].threads[t], choice).0)
  {
    hide NodeAt, SkipAt, Reachable, Known, Visited, AbsentSeen, HeightSeen, Passed;
    var th := run[n].threads[t];
    NextVisited(run, b, n, th.pred, th.layer);
  }

  /** The end of a layer: the key is met here, or is absent. */
  ghost predicate LayerDone(run: seq<State>, b: nat, n: nat, th: Thread, th1: Thread)
    requires n < |run|
  {
    && th1.data == th.data && th1.top == th.top && th1.op == th.op && th1.isMarked == th.isMarked
    && FoundSeen(run, b, n, th1.found, th1.foundNode) &&
        Passed(run, b, n, th1.data, th1.top, if th1.found == 0 then th.layer else th1.found)
  }

  lemma {:induction false} AtLayerEnd(run: seq<State>, b: nat, n: nat, t: nat)
    requires Watched(run, b, n, t) && run[n].threads[t].phase == ReadSkip
    requires var th := run[n].threads[t]; var y := SkipAt(run[n], th.pred, th.layer);
             !(y != NIL && NodeAt(run[n], y).key < th.data)
    ensures LayerDone(run, b, n, run[n].threads[t], SearchStep(run[n], run[n].threads[t]))
  {
    hide NodeAt, SkipAt, Reachable, Visited, AbsentSeen, HeightSeen, Layers, TargetOk, ValidOk, OwnNode, GrowOk,
         HeldOk, PathFrom, FoundOk, LockOk, OldHead;
    var th := run[n].threads[t];
    var y := SkipAt(run[n], th.pred, th.layer);
    if th.found == 0 {
      if y != NIL && NodeAt(run[n], y).key == th.data {
        NextVisited(run, b, n, th.pred, th.layer);
      } else {
        PastIsAbsent(run, b, n, th.pred, th.layer, th.data);
      }
    }
  }

  lemma {:induction false} VisitedBelow(run: seq<State>, b: nat, n: nat, x: nat, k: nat, j: nat)
    requires n < |run| && Visited(run, b, n, x, k) && j <= k
    ensures Visited(run, b, n, x, j)
  {
    hide NodeAt;
    var m: nat :| b < m <= n && InLayer(run[m], x, k);
    assert InLayer(run[m], x, j);
  }

  /** One layer down, with the same predecessor. */
  lemma {:induction false} AtDown(run: seq<State>, b: nat, n: nat, t: nat, choice: Choice)
    requires Watched(run, b, n, t) && run[n].threads[t].phase == ReadSkip && run[n].threads[t].layer > 0
    requires var th := run[n].threads[t]; var y := SkipAt(run[n], th.pred, th.layer);
             !(y != NIL && NodeAt(run[n], y).key < th.data)
    ensures History(run, b, n, Action(run[n], t, run[n].threads[t], choice).0)
  {
    hide NodeAt, SkipAt, Reachable, Known, Visited, Passed, FoundSeen, NoMemberSeen, Searched;
    AtLayerEnd(run, b, n, t);
    var th := run[n].threads[t];
    VisitedBelow(run, b, n, th.pred, th.layer, th.layer - 1);
  }

  /** The end of the search. */
  lemma {:induction false} AtSearched(run: seq<State>, b: nat, n: nat, t: nat, choice: Choice)
    requires Watched(run, b, n, t) && run[n].threads[t].phase == ReadSkip && run[n].threads[t].layer == 0
    requires var th := run[n].threads[t]; var y := SkipAt(run[n], th.pred, th.layer);
             !(y != NIL && NodeAt(run[n], y).key < th.data)
    ensures History(run, b, n, Action(run[n], t, run[n].threads[t], choice).0)
  {
    hide NodeAt, SkipAt, Reachable, Known, Visited, Passed, FoundSeen, NoMemberSeen;
    AtLayerEnd(run, b, n, t);
    NothingFound(run, b, n, SearchStep(run[n], run[n].threads[t]));
  }

  lemma {:induction false} NothingFound(run: seq<State>, b: nat, n: nat, th: Thread)
    requires n < |run|
    ensures Passed(run, b, n, th.data, th.top, 0) ==> NoMemberSeen(run, b, n, th.data)
  {
    hide AbsentAt, HeightSeen, Member;
    if Passed(run, b, n, th.data, th.top, 0) {
      assert AbsentSeen(run, b, n, th.data, 0);
      var m: nat :| b < m <= n && AbsentAt(run[m], th.data, 0);
      AbsentNoMember(run[m], th.data);
    }
  }

  lemma {:induction false} AtAddCheck(run: seq<State>, b: nat, n: nat, t: nat, choice: Choice)
    requires Watched(run, b, n, t) && run[n].threads[t].phase == AddCheckMarked
    ensures History(run, b, n, Action(run[n], t, run[n].threads[t], choice).0)
  {
    hide NodeAt, SkipAt, Reachable, Layers, TargetOk, ValidOk, OwnNode, GrowOk, HeldOk, PathFrom, LockOk, OldHead,
         AbsentSeen, HeightSeen, Visited;
  }

  lemma {:induction false} WaitingIsAdd(run: seq<State>, b: nat, n: nat, t: nat)
    requires Watched(run, b, n, t) && run[n].threads[t].phase == AddWaitLinked
    ensures run[n].threads[t].op == Add && !run[n].threads[t].isMarked
  {
    hide NodeAt, SkipAt, Reachable, Layers, TargetOk, ValidOk, OwnNode, GrowOk, HeldOk, PathFrom, LockOk, OldHead,
         History;
  }

  lemma {:induction false} AtAddWait(run: seq<State>, b: nat, n: nat, t: nat, choice: Choice)
    requires Watched(run, b, n, t) && run[n].threads[t].phase == AddWaitLinked
    ensures History(run, b, n, Action(run[n], t, run[n].threads[t], choice).0)
  {
    hide NodeAt, SkipAt, Reachable, Known, EverLinked, Member;
    WaitingIsAdd(run, b, n, t);
    var th := run[n].threads[t];
    if NodeAt(run[n], th.foundNode).fullyLinked {
      var m: nat :| b < m <= n && EverLinked(run[m], th.foundNode, 0) && !NodeAt(run[m], th.foundNode).isHead
                    && NodeAt(run[m], th.foundNode).key == th.data && !NodeAt(run[m], th.foundNode).marked;
      SeenComplete(run, m, n, th.foundNode, th.data);
    }
  }

  /** What is known of the node that a search has found. */
  lemma {:induction false} FoundIs(run: seq<State>, b: nat, n: nat, t: nat)
    requires Watched(run, b, n, t) && run[n].threads[t].phase in {RemoveCheckLinked, RemoveCheckMarked}
    ensures var th := run[n].threads[t]; var x := th.foundNode;
            && th.found > 0 && !th.isMarked && th.op == Remove
            && EverLinked(run[n], x, 0) && !NodeAt(run[n], x).isHead && NodeAt(run[n], x).key == th.data &&
                NodeAt(run[n], x).height >= th.found
            && Visited(run, b, n, x, 0) && Passed(run, b, n, th.data, th.top, th.found)
  {
    hide NodeAt, SkipAt, Reachable, LinkUp, LinkNext, KeyOnce, TargetOk, ValidOk, OwnNode, GrowOk, HeldOk, PathFrom,
         LockOk, OldHead, AbsentSeen, HeightSeen, Visited;
    var th := run[n].threads[t];
    VisitedBelow(run, b, n, th.foundNode, th.found - 1, 0);
    assert NodeShape(run[n], th.foundNode);
  }

  lemma {:induction false} AtRemoveCheck(run: seq<State>, b: nat, n: nat, t: nat, choice: Choice)
    requires Watched(run, b, n, t) && run[n].threads[t].phase in {RemoveCheckLinked, RemoveCheckMarked}
    ensures History(run, b, n, Action(run[n], t, run[n].threads[t], choice).0)
  {
    hide NodeAt, SkipAt, Reachable, Known, EverLinked, Visited, Passed, NoMemberSeen;
    FoundIs(run, b, n, t);
    var th := run[n].threads[t];
    var x := th.foundNode;
    if th.phase == RemoveCheckMarked {
      if NodeAt(run[n], x).marked { MarkedSeen(run, b, n, x, th.data); }
    } else if !NodeAt(run[n], x).fullyLinked {
      IncompleteSeen(run, b, n, x, th.data);
    } else if NodeAt(run[n], x).height != th.found {
      LateSeen(run, b, n, x, th);
    }
  }

  lemma {:induction false} AtTarget(run: seq<State>, b: nat, n: nat, t: nat, choice: Choice)
    requires Watched(run, b, n, t) && run[n].threads[t].phase in {LockTarget, RecheckMarked}
    ensures History(run, b, n, Action(run[n], t, run[n].threads[t], choice).0)
  {
    hide NodeAt, SkipAt, Reachable, Layers, SearchOk, ValidOk, OwnNode, GrowOk, HeldOk, LockOk, OldHead, Visited,
         NoMemberSeen;
    var th := run[n].threads[t];
    if th.phase == RecheckMarked && NodeAt(run[n], th.target).marked { MarkedSeen(run, b, n, th.target, th.data); }
  }

  /** The remaining phases do not begin another search, and a remove that reaches its end there has marked its node. */
  lemma {:induction false} OtherAction(s: State, t: nat, th: Thread, choice: Choice)
    requires !Searching(th.phase) && th.phase !in {LockTarget, RecheckMarked, Done}
    ensures var th' := Action(s, t, th, choice).0;
            && th'.op == th.op && th'.data == th.data && th'.found == th.found && (th.isMarked ==> th'.isMarked)
            && (th.phase == Release && th.next in {LoadHeight, Done, GrowHeight} ==>
                th'.phase in {Release, LoadHeight, Done, GrowHeight})
            && (th.phase != Release ==>
                   (!Searching(th'.phase) || th'.phase == LoadHeight) && th'.phase !in {LockTarget, RecheckMarked})
            && (th'.phase in {Release, Done} ==> th.phase !in {MarkTarget, LockPred})
  {
    hide NodeAt, SkipAt, At;
  }

  lemma {:induction false} OtherPhases(run: seq<State>, b: nat, n: nat, t: nat)
    requires Watched(run, b, n, t) && !Searching(run[n].threads[t].phase)
    requires run[n].threads[t].phase !in {LockTarget, RecheckMarked, Done, MarkTarget, Release}
    ensures run[n].threads[t].op == Remove ==> run[n].threads[t].isMarked
  {
    hide NodeAt, SkipAt, At, Reachable, Layers, SearchOk, LockOk, OldHead, History, Valid, Descending, Complete;
  }

  lemma {:induction false} ReleaseNext(run: seq<State>, b: nat, n: nat, t: nat)
    requires Watched(run, b, n, t) && run[n].threads[t].phase == Release
    ensures run[n].threads[t].next in {LoadHeight, Done, GrowHeight}
  {
    hide NodeAt, SkipAt, At, Reachable, Layers, SearchOk, TargetOk, ValidOk, OwnNode, GrowOk, LockOk, OldHead, History,
         Descending;
  }

  lemma {:induction false} AtOther(run: seq<State>, b: nat, n: nat, t: nat, choice: Choice)
    requires Watched(run, b, n, t) && !Searching(run[n].threads[t].phase)
    requires run[n].threads[t].phase !in {LockTarget, RecheckMarked, Done}
    ensures History(run, b, n, Action(run[n], t, run[n].threads[t], choice).0)
  {
    hide Action, Reachable, Known, Visited, NoMemberSeen, MemberSeen, Passed, FoundSeen, UnmarkedSeen, HeightSeen;
    OtherAction(run[n], t, run[n].threads[t], choice);
    if run[n].threads[t].phase == Release { ReleaseNext(run, b, n, t); }
    else if run[n].threads[t].phase != MarkTarget { OtherPhases(run, b, n, t); }
  }

  /** Any step of the thread within its operation. */
  lemma {:induction false} OwnHistory(run: seq<State>, b: nat, n: nat, t: nat, choice: Choice)
    requires Watched(run, b, n, t) && run[n].threads[t].phase != Done
    ensures History(run, b, n, Action(run[n], t, run[n].threads[t], choice).0)
  {
    hide NodeAt, SkipAt, Action, Known, Reachable, History;
    var th := run[n].threads[t];
    match th.phase
    case LoadHeight => AtLoad(run, b, n, t, choice);
    case LoadHead => AtLoad(run, b, n, t, choice);
    case ReadSkip =>
      var y := SkipAt(run[n], th.pred, th.layer);
      if y != NIL && NodeAt(run[n], y).key < th.data { AtMove(run, b, n, t, choice); }
      else if th.layer > 0 { AtDown(run, b, n, t, choice); }
      else { AtSearched(run, b, n, t, choice); }
    case AddCheckMarked => AtAddCheck(run, b, n, t, choice);
    case AddWaitLinked => AtAddWait(run, b, n, t, choice);
    case RemoveCheckLinked => AtRemoveCheck(run, b, n, t, choice);
    case RemoveCheckMarked => AtRemoveCheck(run, b, n, t, choice);
    case LockTarget => AtTarget(run, b, n, t, choice);
    case RecheckMarked => AtTarget(run, b, n, t, choice);
    case _ => AtOther(run, b, n, t, choice);
  }

  // ---- Whole operations ----

  /** Thread t has begun an operation at b and ends it at n. */
  ghost predicate Operation(run: seq<State>, b: nat, n: nat, t: nat) {
    && b + 1 < n < |run| && Running(run, b, n, t) && t < |run[n].threads| && run[n].threads[t].phase == Done
  }

  ghost predicate Running(run: seq<State>, b: nat, n: nat, t: nat) {
    && b < n <= |run| && t < |run[b].threads| && run[b].threads[t].phase == Done
    && forall r: nat :: b < r < n ==> t < |run[r].threads| && run[r].threads[t].phase != Done
  }

  /** While the operation runs, what it has seen is on record. */
  lemma {:induction false} OperationHistory(run: seq<State>, b: nat, n: nat, t: nat)
    requires Reachable(run) && Running(run, b, n, t) && b + 1 < n < |run|
    ensures t < |run[n].threads| && History(run, b, n, run[n].threads[t])
    decreases n
  {
    hide Inv, Init, Step, Known, History, Action, Moved;
    assert Next(run[n - 1], run[n]);
    var u: nat, choice :| u < |run[n - 1].threads| && run[n] == Step(run[n - 1], u, choice);
    SameThreads(run[n - 1], u, choice);
    if n - 1 == b + 1 {
      FirstHistory(run, b, t);
    } else {
      OperationHistory(run, b, n - 1, t);
    }
    RunKeepsInv(run, n - 1);
    InvKnown(run[n - 1], t);
    if u == t { OwnHistory(run, b, n - 1, t, choice); }
    HistoryStays(run, b, n - 1, run[n].threads[t]);
  }

  /** At the beginning there is nothing to record. */
  lemma {:induction false} FirstHistory(run: seq<State>, b: nat, t: nat)
    requires Reachable(run) && b + 1 < |run| && t < |run[b].threads| && run[b].threads[t].phase == Done
    requires t < |run[b + 1].threads| && run[b + 1].threads[t].phase != Done
    ensures History(run, b, b + 1, run[b + 1].threads[t])
  {
    hide Inv, Init, Step, SearchAction, LockAction, ChangeAction;
    assert Next(run[b], run[b + 1]);
    var u: nat, choice :| u < |run[b].threads| && run[b + 1] == Step(run[b], u, choice);
    SameThreads(run[b], u, choice);
  }
}
