/** The invariant of the hash map holds in every run; with it, keys are unique and failed searches are justified. */
module AtomicHashMapSafety {
  import opened AtomicHashMap
  import opened AtomicHashMapInvariant

  ghost predicate Known(c: Config, s: State, t: nat) {
    && t < |s.threads| && Shape(c, s) && ThreadShape(c, s, s.threads[t]) && Grower(c, s, s.threads[t])
    && InsertFacts(c, s, t, s.threads[t]) && s.threads[t].began <= s.clock && s.threads[t].startMaps <= s.numMaps
  }

  lemma {:induction false} InvKnown(c: Config, s: State, t: nat)
    requires Inv(c, s) && t < |s.threads|
    ensures Known(c, s, t)
  {
    hide Shape, ThreadShape, Grower, InsertFacts, LockOwned, LiveRooted, SearchFacts, Sub, Frozen;
  }

  // ---- Numbers and growth ----

  lemma {:induction false} OwnShape(c: Config, s: State, s': State, t: nat, choice: Choice)
    requires Known(c, s, t) && Moved(c, s, s', t, choice)
    ensures ThreadShape(c, s', s'.threads[t])
  {
    hide InsertFacts, CellAt, Sub, Position, View, InsertAction, SearchAction;
    if s.threads[t].phase == Done {
      NumMapsGrow(c, s, s', t, choice);
    } else if s.threads[t].op == Insert {
      InsertShape(c, s, s', t, choice);
    } else {
      SearchShape(c, s, s', t, choice);
    }
  }

  lemma {:induction false} NumMapsGrow(c: Config, s: State, s': State, t: nat, choice: Choice)
    requires Moved(c, s, s', t, choice)
    ensures s.numMaps <= s'.numMaps && (Action(c, s, t, s.threads[t], choice).1.AddMap? ==> s'.numMaps == s.numMaps + 1)
    ensures |s'.threads| == |s.threads| && s'.threads[t] == Action(c, s, t, s.threads[t], choice).0
    ensures forall u :: 0 <= u < |s.threads| && u != t ==> s'.threads[u] == s.threads[u]
    ensures s'.clock == s.clock + 1
  {
    hide Action, Allowed, Apply;
  }

  lemma {:induction false} InsertShape(c: Config, s: State, s': State, t: nat, choice: Choice)
    requires Known(c, s, t) && Moved(c, s, s', t, choice) && s.threads[t].op == Insert && s.threads[t].phase != Done
    ensures ThreadShape(c, s', s'.threads[t])
  {
    hide InsertFacts, CellAt, Sub, Position, Moved, Step;
    NumMapsGrow(c, s, s', t, choice);
  }

  lemma {:induction false} SearchShape(c: Config, s: State, s': State, t: nat, choice: Choice)
    requires Known(c, s, t) && Moved(c, s, s', t, choice) && s.threads[t].op != Insert && s.threads[t].phase != Done
    ensures ThreadShape(c, s', s'.threads[t])
  {
    hide InsertFacts, CellAt, Sub, Position, Moved, Step;
    NumMapsGrow(c, s, s', t, choice);
  }

  lemma {:induction false} OthersShape(c: Config, s: State, s': State, t: nat, choice: Choice, u: nat)
    requires Known(c, s, u) && Moved(c, s, s', t, choice) && u != t
    ensures ThreadShape(c, s', s'.threads[u])
  {
    hide InsertFacts, Moved, Grower, Action;
    NumMapsGrow(c, s, s', t, choice);
  }

  /** The slot a grower has reserved or filled. */
  lemma {:induction false} OwnGrower(c: Config, s: State, s': State, t: nat, choice: Choice)
    requires Known(c, s, t) && Moved(c, s, s', t, choice)
    ensures Grower(c, s', s'.threads[t])
  {
    hide InsertFacts, CellAt, Position, NewSubMap, View, Sub;
  }

  /** Only the thread that finds the next slot empty becomes the grower. */
  lemma {:induction false} BecomesGrower(c: Config, s: State, t: nat, choice: Choice)
    requires t < |s.threads| && IsGrower(Action(c, s, t, s.threads[t], choice).0) && !IsGrower(s.threads[t])
    ensures var j := s.threads[t].limit; j < |s.slots| && s.slots[j] == NullPtr && s.threads[t].phase == TryLockMap
  {
    hide CellAt, Position, NewSubMap, Sub;
  }

  /** Two threads never allocate at the same time. */
  lemma {:induction false} GrowersUnique(c: Config, s: State, s': State, t: nat, choice: Choice, u: nat)
    requires Known(c, s, t) && Known(c, s, u) && Moved(c, s, s', t, choice) && u != t
    requires !(IsGrower(s.threads[t]) && IsGrower(s.threads[u]))
    ensures !(IsGrower(s'.threads[t]) && IsGrower(s'.threads[u]))
  {
    hide InsertFacts, CellAt, Position, NewSubMap, View, Sub, Step, Moved, Action;
    NumMapsGrow(c, s, s', t, choice);
    if IsGrower(s'.threads[t]) && IsGrower(s.threads[u]) { BecomesGrower(c, s, t, choice); }
  }

  lemma {:induction false} OthersGrower(c: Config, s: State, s': State, t: nat, choice: Choice, u: nat)
    requires Known(c, s, t) && Known(c, s, u) && Moved(c, s, s', t, choice) && u != t
    requires !(IsGrower(s.threads[t]) && IsGrower(s.threads[u]))
    ensures Grower(c, s', s'.threads[u])
  {
    hide InsertFacts, CellAt, Position, NewSubMap, View;
    if IsGrower(s.threads[u]) { GrowEffects(c, s, t, choice); }
  }

  lemma {:induction false} GrowEffects(c: Config, s: State, t: nat, choice: Choice)
    requires Known(c, s, t) && !IsGrower(s.threads[t])
    ensures var e := Action(c, s, t, s.threads[t], choice).1; !e.AddMap? && (e.SetSlot? ==> s.slots[e.i] == NullPtr)
  {
    hide InsertFacts, CellAt, Position, NewSubMap, Sub;
  }

  // ---- What inserting threads know ----

  lemma {:induction false} LearntStable(c: Config, s: State, s': State, t: nat, choice: Choice, th: Thread)
    requires Learnt(c, s, th) && Moved(c, s, s', t, choice)
    ensures Learnt(c, s', th)
  {
    hide Moved, CellAt, Sub, Frozen, DeadPrefix, SealedBelow, Action;
    if th.op == Insert {
      if Probing(th.phase) {
        PrefixStable(c, s, s', t, choice, th.sub, th.key, th.probe);
        SealedBelowStable(c, s, s', t, choice, th.key, th.sub);
      }
      if Growing(th.phase) { SealedBelowStable(c, s, s', t, choice, th.key, th.limit); }
      FullStays(c, s, s', t, choice, th.sub);
      if th.phase == StoreFull || th.phase == RereadKey { FrozenStable(c, s, s', t, choice, th.sub); }
    }
  }

  lemma {:induction false} OthersFacts(c: Config, s: State, s': State, t: nat, choice: Choice, u: nat)
    requires Known(c, s, u) && Moved(c, s, s', t, choice) && u != t
    ensures InsertFacts(c, s', u, s'.threads[u])
  {
    hide Moved, CellAt, Learnt, Action, Shape, ThreadShape, Grower, Position;
    NumMapsGrow(c, s, s', t, choice);
    LearntStable(c, s, s', t, choice, s.threads[u]);
    if s.threads[u].op == Insert && s.threads[u].phase == WriteValue { LockKept(c, s, s', t, choice, u); }
  }

  /** Nobody else touches a locked cell. */
  lemma {:induction false} LockKept(c: Config, s: State, s': State, t: nat, choice: Choice, u: nat)
    requires Moved(c, s, s', t, choice) && u != t && u < |s.threads| &&
             CellAt(s, s.threads[u].sub, Position(c, s.threads[u])) == LockedCell(u)
    ensures CellAt(s', s.threads[u].sub, Position(c, s.threads[u])) == LockedCell(u)
  {
    hide CellAt, Sub, Action, Step, Position;
  }

  /** The probes a key has gone through in a full submap. */
  lemma {:induction false} SealHere(c: Config, s: State, th: Thread, n: nat)
    requires DeadPrefix(c, s, th.sub, th.key, n) && SealedBelow(c, s, th.key, th.sub)
    requires n < |c.probe(th.sub, th.key)| ==>
                Frozen(s, th.sub) && CellAt(s, th.sub, PathAt(c, th.sub, th.key, n)) == EmptyCell
    ensures SealedBelow(c, s, th.key, th.sub + 1)
  {
    hide DeadPrefix, Frozen, CellAt, PathAt;
    assert SealedAt(c, s, th.sub, th.key, n);
  }

  /** One more dead probe. */
  lemma {:induction false} LongerPrefix(c: Config, s: State, i: nat, k: nat, n: nat)
    requires DeadPrefix(c, s, i, k, n) && n < |c.probe(i, k)| && Dead(CellAt(s, i, PathAt(c, i, k, n)), k)
    ensures DeadPrefix(c, s, i, k, n + 1)
  {
    hide CellAt, PathAt;
  }

  /** Moving on to the next submap, or to growing, with this one sealed. */
  lemma {:induction false} NextMapFacts(c: Config, s: State, th: Thread)
    requires c.Ok() && SealedBelow(c, s, th.key, th.sub + 1) && th.op == Insert && th.sub <= th.limit
    ensures Learnt(c, s, NextMap(c, th))
  {
    hide CellAt, Sub, Frozen, Sealed, PathAt;
    NoPrefix(c, s, th.sub + 1, th.key);
  }

  lemma {:induction false} NoPrefix(c: Config, s: State, i: nat, k: nat)
    ensures DeadPrefix(c, s, i, k, 0) && SealedBelow(c, s, k, 0)
  {
  }

  /** Reading the cell again after the submap has been frozen. */
  lemma {:induction false} LearntAtReread(c: Config, s: State, t: nat, choice: Choice)
    requires Known(c, s, t) && s.threads[t].op == Insert && s.threads[t].phase == RereadKey
    ensures Learnt(c, s, Action(c, s, t, s.threads[t], choice).0)
  {
    hide CellAt, Sub, Frozen, Sealed, DeadPrefix, SealedBelow, NextMap, PathAt, Grower, HasLock;
    var th := s.threads[t];
    if CellAt(s, th.sub, Position(c, th)) == EmptyCell {
      SealHere(c, s, th, th.probe);
      NextMapFacts(c, s, th);
    }
  }

  /** Comparing the key. */
  lemma {:induction false} LearntAtCompare(c: Config, s: State, t: nat, choice: Choice)
    requires Known(c, s, t) && s.threads[t].op == Insert && s.threads[t].phase == CompareKey
    ensures Learnt(c, s, Action(c, s, t, s.threads[t], choice).0)
  {
    hide CellAt, Sub, Frozen, Sealed, DeadPrefix, SealedBelow, NextMap, PathAt, Grower, HasLock;
    var th := s.threads[t];
    if Dead(CellAt(s, th.sub, Position(c, th)), th.key) {
      LongerPrefix(c, s, th.sub, th.key, th.probe);
      if th.probe + 1 >= c.capacity(th.sub) {
        SealHere(c, s, th, th.probe + 1);
        NextMapFacts(c, s, th);
      }
    }
  }

  /** Waiting until nobody can insert: either another thread has seen it, or no insert is pending. */
  lemma {:induction false} LearntAtSpin(c: Config, s: State, t: nat, choice: Choice)
    requires Known(c, s, t) && s.threads[t].op == Insert &&
             (s.threads[t].phase == SpinFull || s.threads[t].phase == SpinPending)
    requires var i := s.threads[t].sub;
             Sub(s, i).pending == Count(s.threads, i) && (Sub(s, i).isFull == NO_PENDING_INSERTS ==> Frozen(s, i))
    ensures Learnt(c, s, Action(c, s, t, s.threads[t], choice).0)
  {
    hide CellAt, Sub, DeadPrefix, SealedBelow, PathAt, Grower, HasLock, Count;
    NoPending(s.threads, s.threads[t].sub);
  }

  lemma {:induction false} NoPending(threads: seq<Thread>, i: nat)
    ensures Count(threads, i) == 0 ==> forall u :: 0 <= u < |threads| ==> !Committed(threads[u], i)
    decreases |threads|
  {
    if |threads| > 0 { NoPending(threads[..|threads| - 1], i); }
  }

  /** The other steps at a cell. */
  lemma {:induction false} LearntWhileProbing(c: Config, s: State, t: nat, choice: Choice)
    requires Known(c, s, t) && s.threads[t].op == Insert && Probing(s.threads[t].phase)
    requires s.threads[t].phase !in {RereadKey, CompareKey, SpinFull, SpinPending}
    ensures Learnt(c, s, Action(c, s, t, s.threads[t], choice).0)
  {
    hide CellAt, Sub, Frozen, DeadPrefix, SealedBelow, PathAt, Position, Grower, HasLock, Shape, ThreadShape, NextMap,
         NextProbe;
  }

  /** Starting at the first submap. */
  lemma {:induction false} LearntAtStart(c: Config, s: State, t: nat, choice: Choice)
    requires Known(c, s, t) && s.threads[t].op == Insert && s.threads[t].phase == LoadMaps
    ensures Learnt(c, s, Action(c, s, t, s.threads[t], choice).0)
  {
    hide CellAt, Sub, Frozen, DeadPrefix, SealedBelow, PathAt, Position, Grower, HasLock, Shape, ThreadShape, NextMap,
         NextProbe;
    NoPrefix(c, s, 0, s.threads[t].key);
  }

  /** Adding a submap, or waiting for it; then the search goes on there. */
  lemma {:induction false} LearntWhileGrowing(c: Config, s: State, t: nat, choice: Choice)
    requires Known(c, s, t) && s.threads[t].op == Insert && Growing(s.threads[t].phase)
    ensures Learnt(c, s, Action(c, s, t, s.threads[t], choice).0)
  {
    hide CellAt, Sub, Frozen, DeadPrefix, SealedBelow, PathAt, Position, Grower, HasLock, Shape, ThreadShape, NextMap,
         NextProbe;
    NoPrefix(c, s, s.threads[t].limit, s.threads[t].key);
  }

  /** Finishing. */
  lemma {:induction false} LearntAtEnd(c: Config, s: State, t: nat, choice: Choice)
    requires Known(c, s, t) && s.threads[t].op == Insert && !Probing(s.threads[t].phase)
    requires !Growing(s.threads[t].phase) && s.threads[t].phase != LoadMaps
    ensures Learnt(c, s, Action(c, s, t, s.threads[t], choice).0)
  {
    hide CellAt, Sub, Frozen, DeadPrefix, SealedBelow, PathAt, Position, Grower, HasLock, Shape, ThreadShape, NextMap,
         NextProbe;
    NoPrefix(c, s, 0, s.threads[t].key);
  }

  lemma {:induction false} OwnFacts(c: Config, s: State, s': State, t: nat, choice: Choice)
    requires Known(c, s, t) && Moved(c, s, s', t, choice)
    requires var i := s.threads[t].sub;
             Sub(s, i).pending == Count(s.threads, i) && (Sub(s, i).isFull == NO_PENDING_INSERTS ==> Frozen(s, i))
    ensures InsertFacts(c, s', t, s'.threads[t])
  {
    hide Moved, CellAt, Sub, Frozen, Learnt, Action, Shape, ThreadShape, Grower, Position, HasLock;
    NumMapsGrow(c, s, s', t, choice);
    var th := s.threads[t];
    if th.op != Insert || th.phase == Done {
      NothingLearnt(c, s, t, choice);
    } else if th.phase == RereadKey {
      LearntAtReread(c, s, t, choice);
    } else if th.phase == CompareKey {
      LearntAtCompare(c, s, t, choice);
    } else if th.phase == SpinFull || th.phase == SpinPending {
      LearntAtSpin(c, s, t, choice);
    } else if Probing(th.phase) {
      LearntWhileProbing(c, s, t, choice);
    } else if th.phase == LoadMaps {
      LearntAtStart(c, s, t, choice);
    } else if Growing(th.phase) {
      LearntWhileGrowing(c, s, t, choice);
    } else {
      LearntAtEnd(c, s, t, choice);
    }
    LearntStable(c, s, s', t, choice, Action(c, s, t, th, choice).0);
    OwnLock(c, s, s', t, choice);
  }

  lemma {:induction false} NothingLearnt(c: Config, s: State, t: nat, choice: Choice)
    requires t < |s.threads| && (s.threads[t].op != Insert || s.threads[t].phase == Done)
    ensures Learnt(c, s, Action(c, s, t, s.threads[t], choice).0)
  {
    hide CellAt, Sub, Frozen, DeadPrefix, SealedBelow, PathAt;
  }

  lemma {:induction false} OwnLock(c: Config, s: State, s': State, t: nat, choice: Choice)
    requires Moved(c, s, s', t, choice) && t < |s'.threads| && s'.threads[t] == Action(c, s, t, s.threads[t], choice).0
    ensures HasLock(c, s', t, s'.threads[t])
  {
    hide CellAt, Sub, Step, Allowed, Frozen, PathAt;
  }

  // ---- Cells ----

  lemma {:induction false} LocksStayOwned(c: Config, s: State, s': State, t: nat, choice: Choice, i: nat, p: nat)
    requires Moved(c, s, s', t, choice) && LockOwned(c, s, i, p) && Known(c, s, t)
    ensures LockOwned(c, s', i, p)
  {
    hide CellAt, Sub, Frozen, PathAt, Shape, ThreadShape, Grower, Learnt, HasLock, Step, Action;
    StepThreads(c, s, s', t, choice);
    if CellAt(s', i, p).LockedCell? && CellAt(s, i, p) == CellAt(s', i, p) && CellAt(s, i, p).owner == t {
      WriterMoves(c, s, t, choice);
    }
    if CellAt(s', i, p).LockedCell? && CellAt(s, i, p) != CellAt(s', i, p) { LockTaken(c, s, t, choice); }
  }

  lemma {:induction false} StepThreads(c: Config, s: State, s': State, t: nat, choice: Choice)
    requires Moved(c, s, s', t, choice)
    ensures |s'.threads| == |s.threads| && s'.threads[t] == Action(c, s, t, s.threads[t], choice).0
    ensures forall u :: 0 <= u < |s.threads| && u != t ==> s'.threads[u] == s.threads[u]
  {
    hide Moved, Action;
    NumMapsGrow(c, s, s', t, choice);
  }

  /** A thread that writes its value always gives up the lock in that step. */
  lemma {:induction false} WriterMoves(c: Config, s: State, t: nat, choice: Choice)
    requires t < |s.threads| && s.threads[t].op == Insert && s.threads[t].phase == WriteValue
    ensures var e := Action(c, s, t, s.threads[t], choice).1;
            e.SetCell? && e.i == s.threads[t].sub && e.p == Position(c, s.threads[t]) && !e.cell.LockedCell?
  {
    hide CellAt, Sub, PathAt, Position;
  }

  lemma {:induction false} LockTaken(c: Config, s: State, t: nat, choice: Choice)
    requires t < |s.threads| && Action(c, s, t, s.threads[t], choice).1.SetCell? &&
             Action(c, s, t, s.threads[t], choice).1.cell.LockedCell?
    ensures var th := Action(c, s, t, s.threads[t], choice).0;
            th == s.threads[t].(phase := WriteValue) && th.op == Insert
  {
    hide CellAt, Sub, PathAt, Position;
  }

  /** Live cells stay rooted; a new one is rooted by what its writer knows. */
  lemma {:induction false} LiveStaysRooted(c: Config, s: State, s': State, t: nat, choice: Choice, i: nat, p: nat)
    requires Moved(c, s, s', t, choice) && LiveRooted(c, s, i, p) && Known(c, s, t)
    ensures LiveRooted(c, s', i, p)
  {
    hide CellAt, Sub, Frozen, PathAt, Rooted, Step, Action, Moved;
    NumMapsGrow(c, s, s', t, choice);
    if CellAt(s', i, p).LiveCell? {
      if CellAt(s', i, p) == CellAt(s, i, p) {
        var k := CellAt(s, i, p).key;
        var n: nat :| Rooted(c, s, i, p, k, n);
        RootedStable(c, s, s', t, choice, i, p, k, n);
      } else {
        NewLive(c, s, s', t, choice, i, p);
      }
    }
  }

  lemma {:induction false} RootedStable(c: Config, s: State, s': State, t: nat, choice: Choice, i: nat, p: nat, k: nat,
                                        n: nat)
    requires Moved(c, s, s', t, choice) && Rooted(c, s, i, p, k, n)
    ensures Rooted(c, s', i, p, k, n)
  {
    hide Moved, CellAt, DeadPrefix, SealedBelow, PathAt;
    PrefixStable(c, s, s', t, choice, i, k, n);
    SealedBelowStable(c, s, s', t, choice, k, i);
  }

  lemma {:induction false} NewLive(c: Config, s: State, s': State, t: nat, choice: Choice, i: nat, p: nat)
    requires Moved(c, s, s', t, choice) && Known(c, s, t) && CellAt(s', i, p).LiveCell? &&
             CellAt(s', i, p) != CellAt(s, i, p)
    ensures LiveRooted(c, s', i, p)
  {
    hide CellAt, Sub, Frozen, PathAt, DeadPrefix, SealedBelow, Step, Grower;
    NumMapsGrow(c, s, s', t, choice);
    LiveWritten(c, s, t, choice);
    var th := s.threads[t];
    assert Rooted(c, s, i, p, th.key, th.probe);
    RootedStable(c, s, s', t, choice, i, p, th.key, th.probe);
  }

  lemma {:induction false} LiveWritten(c: Config, s: State, t: nat, choice: Choice)
    requires t < |s.threads|
    ensures var e := Action(c, s, t, s.threads[t], choice).1;
            e.SetCell? && e.cell.LiveCell? ==>
              && s.threads[t].op == Insert && s.threads[t].phase == WriteValue
              && e.i == s.threads[t].sub && e.p == Position(c, s.threads[t]) &&
                  e.cell == LiveCell(s.threads[t].key, s.clock + 1)
  {
    hide CellAt, Sub, PathAt, Position;
  }

  // ---- Counters ----

  lemma {:induction false} FullStaysFrozen(c: Config, s: State, s': State, t: nat, choice: Choice, i: nat)
    requires Moved(c, s, s', t, choice) && (Sub(s, i).isFull == NO_PENDING_INSERTS ==> Frozen(s, i))
    ensures Sub(s', i).isFull == NO_PENDING_INSERTS ==> Frozen(s', i)
  {
    hide CellAt, Sub, Frozen, Step, Action;
    if Frozen(s, i) { FrozenStable(c, s, s', t, choice, i); }
  }

  lemma {:induction false} CountUpdate(threads: seq<Thread>, i: nat, t: nat, th: Thread)
    requires t < |threads|
    ensures Count(threads[t := th], i)
         == Count(threads, i) - (if InPending(threads[t], i) then 1 else 0) + if InPending(th, i) then 1 else 0
    decreases |threads|
  {
    hide InPending;
    var n := |threads| - 1;
    if t == n {
      assert threads[t := th][..n] == threads[..n];
    } else {
      assert threads[t := th][..n] == threads[..n][t := th];
      CountUpdate(threads[..n], i, t, th);
    }
  }

  lemma {:induction false} PendingStaysExact(c: Config, s: State, s': State, t: nat, choice: Choice, i: nat)
    requires Moved(c, s, s', t, choice) && Sub(s, i).pending == Count(s.threads, i)
    ensures Sub(s', i).pending == Count(s'.threads, i)
  {
    hide CellAt, Sub, Frozen, Action, Allowed, Count, InPending;
    var th := Action(c, s, t, s.threads[t], choice).0;
    CountUpdate(s.threads, i, t, th);
    PendingEffect(c, s, t, choice, i);
    SameThreads(c, s, t, choice);
  }

  lemma {:induction false} SameThreads(c: Config, s: State, t: nat, choice: Choice)
    requires t < |s.threads|
    ensures Step(c, s, t, choice).threads == s.threads[t := Action(c, s, t, s.threads[t], choice).0]
  {
    hide Action;
  }

  /** The counter is changed exactly when the thread enters or leaves the pending phases. */
  lemma {:induction false} PendingEffect(c: Config, s: State, t: nat, choice: Choice, i: nat)
    requires t < |s.threads|
    ensures var (th, e) := Action(c, s, t, s.threads[t], choice);
            (if e.AddPending? && e.i == i then e.delta else 0)
            == (if InPending(th, i) then 1 else 0) - (if InPending(s.threads[t], i) then 1 else 0)
  {
    hide CellAt, Sub, PathAt, Position;
  }

  // ---- Searches ----

  /** A cell that is older than an operation after a step was older before it. */
  lemma {:induction false} OlderBefore(c: Config, s: State, s': State, t: nat, choice: Choice, th: Thread, i: nat,
                                       p: nat)
    requires Moved(c, s, s', t, choice) && Older(s', th, i, p) && th.began <= s.clock
    ensures Older(s, th, i, p)
  {
    hide CellAt, Sub, Step, Action, Frozen;
  }

  lemma {:induction false} OthersSearch(c: Config, s: State, s': State, t: nat, choice: Choice, u: nat, i: nat, p: nat)
    requires Moved(c, s, s', t, choice) && u != t && u < |s.threads| && s.threads[u].began <= s.clock &&
             SearchFacts(c, s, s.threads[u], i, p)
    ensures u < |s'.threads| && SearchFacts(c, s', s'.threads[u], i, p)
  {
    hide Moved, CellAt, Older, Position, PathAt;
    StepThreads(c, s, s', t, choice);
    if Older(s', s.threads[u], i, p) { OlderBefore(c, s, s', t, choice, s.threads[u], i, p); }
  }

  /** At a cell that is not this key's, an older live cell of the submap lies further along the path; at an empty or
      locked one there is none. */
  lemma {:induction false} OlderIsFurther(c: Config, s: State, th: Thread, i: nat, p: nat)
    requires c.Ok() && th.probe < c.capacity(th.sub) && LiveRooted(c, s, i, p) && SearchFacts(c, s, th, i, p)
    requires th.op != Insert && (th.phase == FindKey || th.phase == EraseKey) && Older(s, th, i, p)
    requires var cell := CellAt(s, th.sub, Position(c, th)); !(cell.LiveCell? && cell.key == th.key)
    ensures i > th.sub || (i == th.sub && forall m: nat :: m < th.probe + 1 ==> PathAt(c, i, th.key, m) != p)
    ensures CellAt(s, th.sub, Position(c, th)).EmptyCell? || CellAt(s, th.sub, Position(c, th)).LockedCell? ==>
            i > th.sub
    ensures th.probe + 1 >= c.capacity(th.sub) ==> i > th.sub
  {
    hide CellAt, SealedBelow, PathAt;
    if i == th.sub {
      var k := th.key;
      var n: nat :| Rooted(c, s, i, p, k, n);
      assert n >= th.probe;
      if n > th.probe { DeadBefore(c, s, i, k, n, th.probe); }
    }
  }

  /** The facts after moving on from a submap without an older live cell. */
  lemma {:induction false} SearchNextFacts(c: Config, s: State, th: Thread, i: nat, p: nat)
    requires th.op != Insert && ThreadShape(c, s, th) && th.phase in {FindKey, EraseKey, EraseCas}
    requires Older(s, th, i, p) ==> i > th.sub && i < th.startMaps && (th.limit > 0 ==> th.startMaps <= th.limit)
    ensures SearchFacts(c, s, SearchNext(th), i, p)
  {
    hide CellAt, Sub, Position, PathAt;
  }

  lemma {:induction false} FindFacts(c: Config, s: State, t: nat, choice: Choice, i: nat, p: nat)
    requires Known(c, s, t) && LiveRooted(c, s, i, p) && SearchFacts(c, s, s.threads[t], i, p)
    requires s.threads[t].op == Find && s.threads[t].phase == FindKey
    ensures SearchFacts(c, s, Action(c, s, t, s.threads[t], choice).0, i, p)
  {
    hide CellAt, Sub, PathAt, LiveRooted, SearchNext, InsertFacts, Grower;
    var th := s.threads[t];
    var cell := CellAt(s, th.sub, Position(c, th));
    if !(cell.LiveCell? && cell.key == th.key) {
      if Older(s, th, i, p) { OlderIsFurther(c, s, th, i, p); }
      if cell.EmptyCell? || th.probe + 1 >= c.capacity(th.sub) { SearchNextFacts(c, s, th, i, p); }
    }
  }

  lemma {:induction false} EraseFacts(c: Config, s: State, t: nat, choice: Choice, i: nat, p: nat)
    requires Known(c, s, t) && LiveRooted(c, s, i, p) && SearchFacts(c, s, s.threads[t], i, p) && Unique(s)
    requires s.threads[t].op == Erase && s.threads[t].phase == EraseKey
    ensures SearchFacts(c, s, Action(c, s, t, s.threads[t], choice).0, i, p)
  {
    hide CellAt, Sub, PathAt, LiveRooted, SearchNext, InsertFacts, Grower;
    var th := s.threads[t];
    var cell := CellAt(s, th.sub, Position(c, th));
    if !(cell.LiveCell? && cell.key == th.key) {
      if Older(s, th, i, p) { OlderIsFurther(c, s, th, i, p); }
      if cell.EmptyCell? || cell.LockedCell? || th.probe + 1 >= c.capacity(th.sub) { SearchNextFacts(c, s, th, i, p); }
    } else if Older(s, th, i, p) {
      assert i == th.sub && p == Position(c, th);
    }
  }

  lemma {:induction false} CasFacts(c: Config, s: State, t: nat, choice: Choice, i: nat, p: nat)
    requires Known(c, s, t) && SearchFacts(c, s, s.threads[t], i, p)
    requires s.threads[t].op == Erase && s.threads[t].phase == EraseCas
    ensures SearchFacts(c, s, Action(c, s, t, s.threads[t], choice).0, i, p)
  {
    hide CellAt, Sub, PathAt, SearchNext, InsertFacts, Grower, Position;
    var th := s.threads[t];
    var cell := CellAt(s, th.sub, Position(c, th));
    if !(cell.LiveCell? && cell.key == th.key) { SearchNextFacts(c, s, th, i, p); }
  }

  /** Beginning an operation and loading the number of submaps. */
  lemma {:induction false} BeginFacts(c: Config, s: State, t: nat, choice: Choice, i: nat, p: nat)
    requires Known(c, s, t) && LiveRooted(c, s, i, p) && SearchFacts(c, s, s.threads[t], i, p)
    requires s.threads[t].phase in {Done, LoadMaps, FindLoadMaps}
    ensures SearchFacts(c, s, Action(c, s, t, s.threads[t], choice).0, i, p)
  {
    hide CellAt, Sub, PathAt, SearchNext, InsertFacts, Grower, Position, Rooted, NextMap, NextProbe;
  }

  lemma {:induction false} OwnSearch(c: Config, s: State, s': State, t: nat, choice: Choice, i: nat, p: nat)
    requires Known(c, s, t) && Moved(c, s, s', t, choice) && Unique(s)
    requires LiveRooted(c, s, i, p) && SearchFacts(c, s, s.threads[t], i, p)
    ensures SearchFacts(c, s', s'.threads[t], i, p)
  {
    hide Moved, CellAt, Sub, Position, PathAt, LiveRooted, Unique, SearchFacts, Action, InsertFacts, Grower, Shape,
         Older;
    StepThreads(c, s, s', t, choice);
    var th := s.threads[t];
    var th' := Action(c, s, t, th, choice).0;
    BeganBefore(c, s, t, choice);
    if th.phase == Done || th.phase == LoadMaps || th.phase == FindLoadMaps {
      BeginFacts(c, s, t, choice, i, p);
    } else if th.op == Insert {
      NoSearch(c, s, t, choice, i, p);
    } else if th.phase == FindKey {
      FindFacts(c, s, t, choice, i, p);
    } else if th.phase == EraseKey {
      EraseFacts(c, s, t, choice, i, p);
    } else {
      CasFacts(c, s, t, choice, i, p);
    }
    SearchCarried(c, s, s', t, choice, th', i, p);
  }

  lemma {:induction false} BeganBefore(c: Config, s: State, t: nat, choice: Choice)
    requires t < |s.threads| && s.threads[t].began <= s.clock && s.threads[t].startMaps <= s.numMaps
    ensures var th := Action(c, s, t, s.threads[t], choice).0; th.began <= s.clock && th.startMaps <= s.numMaps
  {
    hide CellAt, Sub, Position, PathAt;
  }

  lemma {:induction false} NoSearch(c: Config, s: State, t: nat, choice: Choice, i: nat, p: nat)
    requires t < |s.threads| && s.threads[t].op == Insert && s.threads[t].phase != Done
    ensures SearchFacts(c, s, Action(c, s, t, s.threads[t], choice).0, i, p)
  {
    hide CellAt, Sub, Position, PathAt, Older;
  }

  lemma {:induction false} SearchCarried(c: Config, s: State, s': State, t: nat, choice: Choice, th: Thread, i: nat,
                                         p: nat)
    requires Moved(c, s, s', t, choice) && SearchFacts(c, s, th, i, p) && th.began <= s.clock
    ensures SearchFacts(c, s', th, i, p)
  {
    hide Moved, CellAt, Older, Position, PathAt;
    if Older(s', th, i, p) { OlderBefore(c, s, s', t, choice, th, i, p); }
  }

  // ---- Every run ----

  lemma {:induction false} StepThreadsKeep(c: Config, s: State, t: nat, choice: Choice)
    requires Inv(c, s) && t < |s.threads|
    ensures var s' := Step(c, s, t, choice);
            && (forall u: nat :: u < |s'.threads| ==> ThreadShape(c, s', s'.threads[u]))
            && (forall u: nat :: u < |s'.threads| ==> Grower(c, s', s'.threads[u]))
            && (forall u: nat, v: nat ::
                  u < |s'.threads| && v < |s'.threads| && IsGrower(s'.threads[u]) && IsGrower(s'.threads[v]) ==> u == v)
  {
    hide Step, Action, ThreadShape, Grower, InsertFacts, LockOwned, LiveRooted, SearchFacts, Sub, Frozen, Moved, Shape,
         IsGrower;
    var s' := Step(c, s, t, choice);
    StepMoves(c, s, t, choice);
    StepThreads(c, s, s', t, choice);
    InvKnown(c, s, t);
    OwnShape(c, s, s', t, choice);
    OwnGrower(c, s, s', t, choice);
    forall u: nat | u < |s.threads| && u != t
      ensures ThreadShape(c, s', s'.threads[u]) && Grower(c, s', s'.threads[u])
      ensures !(IsGrower(s'.threads[t]) && IsGrower(s'.threads[u]))
    {
      InvKnown(c, s, u);
      OthersShape(c, s, s', t, choice, u);
      OthersGrower(c, s, s', t, choice, u);
      GrowersUnique(c, s, s', t, choice, u);
    }
  }

  lemma {:induction false} StepFactsKeep(c: Config, s: State, t: nat, choice: Choice)
    requires Inv(c, s) && t < |s.threads|
    ensures var s' := Step(c, s, t, choice);
            && (forall u: nat :: u < |s'.threads| ==> InsertFacts(c, s', u, s'.threads[u]))
            && (forall u: nat :: u < |s'.threads| ==>
                   s'.threads[u].began <= s'.clock && s'.threads[u].startMaps <= s'.numMaps)
            && (forall u: nat, i: nat, p: nat :: u < |s'.threads| ==> SearchFacts(c, s', s'.threads[u], i, p))
  {
    hide Step, Action, ThreadShape, Grower, InsertFacts, LockOwned, LiveRooted, SearchFacts, Sub, Frozen, Moved, Shape,
         IsGrower, Unique;
    var s' := Step(c, s, t, choice);
    StepMoves(c, s, t, choice);
    NumMapsGrow(c, s, s', t, choice);
    InvKnown(c, s, t);
    BeganBefore(c, s, t, choice);
    OwnFacts(c, s, s', t, choice);
    InvMeansUnique(c, s);
    forall u: nat | u < |s.threads| && u != t
      ensures InsertFacts(c, s', u, s'.threads[u])
    {
      InvKnown(c, s, u);
      OthersFacts(c, s, s', t, choice, u);
    }
    forall u: nat, i: nat, p: nat | u < |s.threads|
      ensures SearchFacts(c, s', s'.threads[u], i, p)
    {
      if u == t { OwnSearch(c, s, s', t, choice, i, p); } else { OthersSearch(c, s, s', t, choice, u, i, p); }
    }
  }

  lemma {:induction false} StepCellsKeep(c: Config, s: State, t: nat, choice: Choice)
    requires Inv(c, s) && t < |s.threads|
    ensures var s' := Step(c, s, t, choice);
            && (forall i: nat, p: nat :: LockOwned(c, s', i, p))
            && (forall i: nat, p: nat :: LiveRooted(c, s', i, p))
            && (forall i: nat :: Sub(s', i).isFull == NO_PENDING_INSERTS ==> Frozen(s', i))
            && (forall i: nat :: Sub(s', i).pending == Count(s'.threads, i))
  {
    hide Step, Action, ThreadShape, Grower, InsertFacts, LockOwned, LiveRooted, SearchFacts, Sub, Frozen, Moved, Shape,
         IsGrower, Count;
    var s' := Step(c, s, t, choice);
    StepMoves(c, s, t, choice);
    InvKnown(c, s, t);
    forall i: nat, p: nat
      ensures LockOwned(c, s', i, p) && LiveRooted(c, s', i, p)
    {
      LocksStayOwned(c, s, s', t, choice, i, p);
      LiveStaysRooted(c, s, s', t, choice, i, p);
    }
    forall i: nat
      ensures Sub(s', i).isFull == NO_PENDING_INSERTS ==> Frozen(s', i)
      ensures Sub(s', i).pending == Count(s'.threads, i)
    {
      FullStaysFrozen(c, s, s', t, choice, i);
      PendingStaysExact(c, s, s', t, choice, i);
    }
  }

  /** Every step of every thread keeps the invariant. */
  lemma {:induction false} StepKeepsInv(c: Config, s: State, t: nat, choice: Choice)
    requires Inv(c, s) && t < |s.threads|
    ensures Inv(c, Step(c, s, t, choice))
  {
    hide Step, Action, ThreadShape, Grower, InsertFacts, LockOwned, LiveRooted, SearchFacts, Sub, Frozen, Shape,
         IsGrower, Count;
    StepShape(c, s, t, choice);
    StepThreadsKeep(c, s, t, choice);
    StepFactsKeep(c, s, t, choice);
    StepCellsKeep(c, s, t, choice);
  }

  lemma {:induction false} InitInv(c: Config, s: State)
    requires c.Ok() && Init(c, s)
    ensures Inv(c, s)
  {
    hide CellAt, Sub, Rooted, Frozen, DeadPrefix, SealedBelow, Count, NewSubMap, Position, PathAt;
    InitShape(c, s);
    forall i: nat, p: nat
      ensures CellAt(s, i, p) == EmptyCell
    {
      InitCells(c, s, i, p);
    }
    forall i: nat
      ensures Sub(s, i).isFull == 0 && Sub(s, i).pending == 0
      ensures Count(s.threads, i) == 0
    {
      InitCells(c, s, i, 0);
      NobodyPending(s.threads, i);
    }
  }

  lemma {:induction false} InitShape(c: Config, s: State)
    requires c.Ok() && Init(c, s)
    ensures Shape(c, s)
  {
  }

  lemma {:induction false} InitCells(c: Config, s: State, i: nat, p: nat)
    requires c.Ok() && Init(c, s)
    ensures CellAt(s, i, p) == EmptyCell && Sub(s, i).isFull == 0 && Sub(s, i).pending == 0
  {
  }

  lemma {:induction false} NobodyPending(threads: seq<Thread>, i: nat)
    requires forall t :: 0 <= t < |threads| ==> threads[t].phase == Done
    ensures Count(threads, i) == 0
    decreases |threads|
  {
    if |threads| > 0 { NobodyPending(threads[..|threads| - 1], i); }
  }

  lemma {:induction false} RunKeepsInv(c: Config, run: seq<State>, n: nat)
    requires c.Ok() && Reachable(c, run) && n < |run|
    ensures Inv(c, run[n]) && run[n].clock == n
  {
    hide Inv, Action;
    if n == 0 {
      InitInv(c, run[0]);
    } else {
      RunKeepsInv(c, run, n - 1);
      assert Next(c, run[n - 1], run[n]);
      var t: nat, choice :| t < |run[n - 1].threads| && run[n] == Step(c, run[n - 1], t, choice);
      StepKeepsInv(c, run[n - 1], t, choice);
      ClockTicks(c, run[n - 1], t, choice);
    }
  }

  lemma {:induction false} ClockTicks(c: Config, s: State, t: nat, choice: Choice)
    requires Inv(c, s) && t < |s.threads|
    ensures Step(c, s, t, choice).clock == s.clock + 1
  {
    hide Inv, Action, Step;
    StepMoves(c, s, t, choice);
    NumMapsGrow(c, s, Step(c, s, t, choice), t, choice);
  }

  /** In every state of every run, no key is live in two cells, within a submap or across submaps. */
  lemma {:induction false} KeysAreUnique(c: Config, run: seq<State>, n: nat)
    requires c.Ok() && Reachable(c, run) && n < |run|
    ensures Unique(run[n])
  {
    hide Inv, Unique, Reachable;
    RunKeepsInv(c, run, n);
    InvMeansUnique(c, run[n]);
  }

  /** Seeing the submap full and no insert pending means that nobody can take an empty cell any more. */
  lemma {:induction false} FullAndIdleIsFrozen(c: Config, run: seq<State>, n: nat, i: nat)
    requires c.Ok() && Reachable(c, run) && n < |run| && Sub(run[n], i).isFull != 0 && Sub(run[n], i).pending == 0
    ensures Frozen(run[n], i)
  {
    hide Reachable, Sub, ThreadShape, Grower, InsertFacts, LockOwned, LiveRooted, SearchFacts, Shape;
    RunKeepsInv(c, run, n);
    NoPending(run[n].threads, i);
  }

  /** From then on every empty cell of that submap stays empty, in every continuation of the run. */
  lemma {:induction false} FrozenCellsStayEmpty(c: Config, run: seq<State>, m: nat, n: nat, i: nat, p: nat)
    requires c.Ok() && Reachable(c, run) && m <= n < |run| && Frozen(run[m], i) && CellAt(run[m], i, p) == EmptyCell
    ensures Frozen(run[n], i) && CellAt(run[n], i, p) == EmptyCell
    decreases n
  {
    hide Inv, Frozen, CellAt, Step;
    if m < n {
      FrozenCellsStayEmpty(c, run, m, n - 1, i, p);
      RunKeepsInv(c, run, n - 1);
      assert Next(c, run[n - 1], run[n]);
      var t: nat, choice :| t < |run[n - 1].threads| && run[n] == Step(c, run[n - 1], t, choice);
      StepMoves(c, run[n - 1], t, choice);
      FrozenStable(c, run[n - 1], run[n], t, choice, i);
      EmptyStays(c, run[n - 1], run[n], t, choice, i, p);
    }
  }

  ghost predicate Present(s: State, k: nat) {
    exists i: nat, p: nat :: CellAt(s, i, p).LiveCell? && CellAt(s, i, p).key == k
  }

  /** A key that is present before and after a step is live in the same cell, since the same time. */
  lemma {:induction false} SameCell(c: Config, s: State, t: nat, choice: Choice, i: nat, p: nat, k: nat)
    requires Inv(c, s) && t < |s.threads| && CellAt(s, i, p).LiveCell? && CellAt(s, i, p).key == k
    requires Present(Step(c, s, t, choice), k)
    ensures CellAt(Step(c, s, t, choice), i, p) == CellAt(s, i, p)
  {
    hide Inv, CellAt, Step, Action, Sub, Frozen;
    var s' := Step(c, s, t, choice);
    StepMoves(c, s, t, choice);
    InvMeansUnique(c, s);
    var j: nat, q: nat :| CellAt(s', j, q).LiveCell? && CellAt(s', j, q).key == k;
    OneCellChanges(c, s, s', t, choice, i, p, j, q);
  }

  lemma {:induction false} OneCellChanges(c: Config, s: State, s': State, t: nat, choice: Choice, i: nat, p: nat,
                                          j: nat, q: nat)
    requires Moved(c, s, s', t, choice) && CellAt(s, i, p).LiveCell?
    ensures CellAt(s', i, p) == CellAt(s, i, p) ||
            (CellAt(s', i, p) == ErasedCell && ((i == j && p == q) || CellAt(s', j, q) == CellAt(s, j, q)))
  {
    hide CellAt, Step, Action, Sub, Frozen;
  }

  lemma {:induction false} StaysInCell(c: Config, run: seq<State>, b: nat, n: nat, i: nat, p: nat, k: nat)
    requires c.Ok() && Reachable(c, run) && b <= n < |run| && CellAt(run[b], i, p).LiveCell? &&
             CellAt(run[b], i, p).key == k
    requires forall m :: b <= m <= n ==> Present(run[m], k)
    ensures CellAt(run[n], i, p) == CellAt(run[b], i, p)
    decreases n
  {
    hide Inv, CellAt, Step, Present;
    if b < n {
      StaysInCell(c, run, b, n - 1, i, p, k);
      RunKeepsInv(c, run, n - 1);
      assert Next(c, run[n - 1], run[n]);
      var t: nat, choice :| t < |run[n - 1].threads| && run[n] == Step(c, run[n - 1], t, choice);
      assert Present(run[n], k);
      SameCell(c, run[n - 1], t, choice, i, p, k);
    }
  }

  /** A find or erase that reports "not found" has overlapped a moment at which the key was in no cell. */
  lemma {:induction false} FailedSearchIsJustified(c: Config, run: seq<State>, n: nat, t: nat)
    requires c.Ok() && Reachable(c, run) && n < |run| && t < |run[n].threads|
    requires run[n].threads[t].op != Insert && run[n].threads[t].phase == Done && run[n].threads[t].outcome == NotFound
    ensures exists m: nat :: run[n].threads[t].began <= m <= n && !Present(run[m], run[n].threads[t].key)
  {
    hide CellAt, Step, ThreadShape, Grower, InsertFacts, LockOwned, Shape, Sub, Frozen, Reachable;
    var th := run[n].threads[t];
    RunKeepsInv(c, run, n);
    if forall m: nat :: th.began <= m <= n ==> Present(run[m], th.key) {
      RunKeepsInv(c, run, th.began);
      var i: nat, p: nat :| CellAt(run[th.began], i, p).LiveCell? && CellAt(run[th.began], i, p).key == th.key;
      StaysInCell(c, run, th.began, n, i, p, th.key);
      assert LiveRooted(c, run[th.began], i, p);
      assert SearchFacts(c, run[n], th, i, p);
    }
  }
}
