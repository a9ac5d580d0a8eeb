/** What every step of the hash map keeps: probe prefixes stay dead, frozen submaps stay frozen, keys are live once. */
module AtomicHashMapInvariant {
  import opened AtomicHashMap

  /** This cell will never hold k again. */
  predicate Dead(cell: Cell, k: nat) {
    cell.ErasedCell? || (cell.LiveCell? && cell.key != k)
  }

  ghost predicate DeadPrefix(c: Config, s: State, i: nat, k: nat, n: nat) {
    n <= |c.probe(i, k)| && forall m: nat :: m < n ==> Dead(CellAt(s, i, PathAt(c, i, k, m)), k)
  }

  /** The thread has counted itself in the pending inserts of submap i. */
  predicate InPending(th: Thread, i: nat) {
    th.op == Insert && th.sub == i &&
    (th.phase == CheckFull || th.phase == DecPendingFull || th.phase == TryLock || th.phase == DecPendingLost ||
     th.phase == WriteValue || th.phase == DecPendingThrown || th.phase == DecPendingDone)
  }

  /** The thread may lock an empty cell of submap i, or has done so. */
  predicate Committed(th: Thread, i: nat) {
    th.op == Insert && th.sub == i && (th.phase == TryLock || th.phase == WriteValue)
  }

  function Count(threads: seq<Thread>, i: nat): nat {
    if |threads| == 0 then 0
    else Count(threads[..|threads| - 1], i) + if InPending(threads[|threads| - 1], i) then 1 else 0
  }

  /** Nobody can lock an empty cell of submap i any more. */
  ghost predicate Frozen(s: State, i: nat) {
    Sub(s, i).isFull != 0 && forall t: nat :: t < |s.threads| ==> !Committed(s.threads[t], i)
  }

  /** The key can no longer become live in submap i: all its probes are dead, or the first one that is not stays
      empty. */
  ghost predicate SealedAt(c: Config, s: State, i: nat, k: nat, n: nat) {
    && DeadPrefix(c, s, i, k, n)
    && (n < |c.probe(i, k)| ==> Frozen(s, i) && CellAt(s, i, PathAt(c, i, k, n)) == EmptyCell)
  }

  ghost predicate Sealed(c: Config, s: State, i: nat, k: nat) {
    exists n: nat :: SealedAt(c, s, i, k, n)
  }

  ghost predicate SealedBelow(c: Config, s: State, k: nat, j: nat) {
    forall i: nat :: i < j ==> Sealed(c, s, i, k)
  }

  /** A live cell is on the probe path of its key, behind dead cells only, and no earlier submap can take the key. */
  ghost predicate Rooted(c: Config, s: State, i: nat, p: nat, k: nat, n: nat) {
    n < |c.probe(i, k)| && PathAt(c, i, k, n) == p && DeadPrefix(c, s, i, k, n) && SealedBelow(c, s, k, i)
  }

  ghost predicate Shape(c: Config, s: State) {
    && c.Ok() && |s.slots| == c.numSubMaps && 0 < s.numMaps <= c.numSubMaps
    && forall i :: 0 <= i < |s.slots| ==>
         && (i < s.numMaps ==> s.slots[i].Allocated?)
         && (i > s.numMaps ==> s.slots[i] == NullPtr)
         && (s.slots[i].Allocated? ==> |s.slots[i].m.cells| == c.capacity(i))
  }

  predicate Probing(phase: Phase) {
    phase == ReadKey || phase == IncPending || phase == CheckFull || phase == DecPendingFull || phase == SpinFull ||
    phase == SpinPending || phase == StoreFull || phase == RereadKey || phase == TryLock || phase == DecPendingLost ||
    phase == WriteValue || phase == WaitUnlocked || phase == CompareKey
  }

  predicate Counting(phase: Phase) {
    phase == DecPendingThrown || phase == DecPendingDone || phase == CountEntry || phase == StoreNoNewInserts
  }

  predicate Growing(phase: Phase) {
    phase == TryLockMap || phase == AllocateMap || phase == PublishMap || phase == WaitMap
  }

  /** The thread's own numbers are in range. */
  ghost predicate ThreadShape(c: Config, s: State, th: Thread) {
    && th.limit <= s.numMaps
    && if th.phase == Done then true
       else match th.op
         case Insert =>
           if Probing(th.phase) then th.sub < s.numMaps && th.sub <= th.limit && th.probe < c.capacity(th.sub)
           else if Counting(th.phase) then th.sub < s.numMaps
           else if Growing(th.phase) then th.limit < c.numSubMaps && th.limit == th.sub + 1
           else th.phase == LoadMaps
         case Find =>
           if th.phase == FindKey
           then th.sub < s.numMaps && th.probe < c.capacity(th.sub) &&
               (if th.limit == 0 then th.sub == 0 else 0 < th.sub < th.limit)
           else th.phase == FindLoadMaps && th.limit == 0
         case Erase =>
           if th.phase == EraseKey || th.phase == EraseCas then th.sub < th.limit && th.probe < c.capacity(th.sub)
           else th.phase == LoadMaps
  }

  /** The one thread that allocates the next submap. */
  ghost predicate Grower(c: Config, s: State, th: Thread) {
    && (th.op == Insert && th.phase == AllocateMap ==>
           th.limit == s.numMaps && s.numMaps < |s.slots| && s.slots[s.numMaps] == LockedPtr)
    && (th.op == Insert && th.phase == PublishMap ==>
          th.limit == s.numMaps && s.numMaps < |s.slots| && s.slots[s.numMaps] == Allocated(NewSubMap(c, s.numMaps)))
  }

  predicate IsGrower(th: Thread) {
    th.op == Insert && (th.phase == AllocateMap || th.phase == PublishMap)
  }

  /** What an inserting thread has learnt and no other thread can undo. */
  ghost predicate Learnt(c: Config, s: State, th: Thread) {
    th.op == Insert ==>
      && (Probing(th.phase) ==> DeadPrefix(c, s, th.sub, th.key, th.probe) && SealedBelow(c, s, th.key, th.sub))
      && (Growing(th.phase) ==> SealedBelow(c, s, th.key, th.limit))
      && (th.phase == DecPendingFull || th.phase == SpinFull || th.phase == SpinPending ==> Sub(s, th.sub).isFull != 0)
      && (th.phase == StoreFull || th.phase == RereadKey ==> Frozen(s, th.sub))
  }

  /** The thread that writes a value has locked the cell. */
  ghost predicate HasLock(c: Config, s: State, t: nat, th: Thread) {
    th.op == Insert && th.phase == WriteValue ==> CellAt(s, th.sub, Position(c, th)) == LockedCell(t)
  }

  ghost predicate InsertFacts(c: Config, s: State, t: nat, th: Thread) {
    Learnt(c, s, th) && HasLock(c, s, t, th)
  }

  ghost predicate LockOwned(c: Config, s: State, i: nat, p: nat) {
    CellAt(s, i, p).LockedCell? ==>
      var t := CellAt(s, i, p).owner;
      t < |s.threads| && s.threads[t].op == Insert && s.threads[t].phase == WriteValue &&
      s.threads[t].sub == i && Position(c, s.threads[t]) == p
  }

  ghost predicate LiveRooted(c: Config, s: State, i: nat, p: nat) {
    CellAt(s, i, p).LiveCell? ==>
      && i < s.numMaps && CellAt(s, i, p).born <= s.clock
      && exists n: nat :: Rooted(c, s, i, p, CellAt(s, i, p).key, n)
  }

  /** A live cell that has held this key ever since the operation began. */
  predicate Older(s: State, th: Thread, i: nat, p: nat) {
    CellAt(s, i, p).LiveCell? && CellAt(s, i, p).key == th.key && CellAt(s, i, p).born <= th.began
  }

  /** A search has not yet passed an older live cell; one that has failed has none to find. */
  ghost predicate SearchFacts(c: Config, s: State, th: Thread, i: nat, p: nat) {
    th.op != Insert && Older(s, th, i, p) ==>
      && i < th.startMaps && (th.limit > 0 ==> th.startMaps <= th.limit)
      && (th.phase == FindKey || th.phase == EraseKey ==>
            i > th.sub || (i == th.sub && forall m: nat :: m < th.probe ==> PathAt(c, i, th.key, m) != p))
      && (th.phase == FindLoadMaps ==> i > 0)
      && (th.phase == EraseCas ==> i == th.sub && p == Position(c, th))
      && (th.phase == Done ==> th.outcome != NotFound)
  }

  ghost predicate Inv(c: Config, s: State) {
    && Shape(c, s)
    && (forall t: nat :: t < |s.threads| ==> ThreadShape(c, s, s.threads[t]))
    && (forall t: nat :: t < |s.threads| ==> Grower(c, s, s.threads[t]))
    && (forall t: nat, u: nat ::
          t < |s.threads| && u < |s.threads| && IsGrower(s.threads[t]) && IsGrower(s.threads[u]) ==> t == u)
    && (forall t: nat :: t < |s.threads| ==> InsertFacts(c, s, t, s.threads[t]))
    && (forall i: nat, p: nat :: LockOwned(c, s, i, p))
    && (forall i: nat, p: nat :: LiveRooted(c, s, i, p))
    && (forall i: nat :: Sub(s, i).isFull == NO_PENDING_INSERTS ==> Frozen(s, i))
    && (forall i: nat :: Sub(s, i).pending == Count(s.threads, i))
    && (forall t: nat :: t < |s.threads| ==> s.threads[t].began <= s.clock && s.threads[t].startMaps <= s.numMaps)
    && (forall t: nat, i: nat, p: nat :: t < |s.threads| ==> SearchFacts(c, s, s.threads[t], i, p))
  }

  /** No key is live in two cells. */
  ghost predicate Unique(s: State) {
    forall i: nat, p: nat, j: nat, q: nat ::
      CellAt(s, i, p).LiveCell? && CellAt(s, j, q).LiveCell? && CellAt(s, i, p).key == CellAt(s, j, q).key ==>
          i == j && p == q
  }

  lemma {:induction false} DeadBefore(c: Config, s: State, i: nat, k: nat, n: nat, m: nat)
    requires DeadPrefix(c, s, i, k, n) && m < n
    ensures Dead(CellAt(s, i, PathAt(c, i, k, m)), k)
  {
  }

  /** A key cannot be live where it is sealed off. */
  lemma {:induction false} SealedMeansAbsent(c: Config, s: State, i: nat, k: nat, p: nat, n: nat)
    requires Sealed(c, s, i, k) && Rooted(c, s, i, p, k, n)
    ensures CellAt(s, i, p) != EmptyCell ==> Dead(CellAt(s, i, p), k)
  {
    var m: nat :| SealedAt(c, s, i, k, m);
    if m < n { DeadBefore(c, s, i, k, n, m); }
  }

  /** Two cells cannot both be rooted for the same key unless one of them is dead. */
  lemma {:induction false} RootedOnce(c: Config, s: State, i: nat, p: nat, n: nat, j: nat, q: nat, m: nat, k: nat)
    requires Rooted(c, s, i, p, k, n) && Rooted(c, s, j, q, k, m)
    requires !Dead(CellAt(s, i, p), k) && !Dead(CellAt(s, j, q), k) && CellAt(s, i, p) != EmptyCell &&
             CellAt(s, j, q) != EmptyCell
    ensures i == j && p == q
  {
    if i < j { SealedMeansAbsent(c, s, i, k, p, n); }
    if j < i { SealedMeansAbsent(c, s, j, k, q, m); }
  }

  lemma {:induction false} InvMeansUnique(c: Config, s: State)
    requires Inv(c, s)
    ensures Unique(s)
  {
    forall i: nat, p: nat, j: nat, q: nat | CellAt(s, i, p).LiveCell? && CellAt(s, j, q).LiveCell? &&
      CellAt(s, i, p).key == CellAt(s, j, q).key
      ensures i == j && p == q
    {
      var k := CellAt(s, i, p).key;
      assert LiveRooted(c, s, i, p) && LiveRooted(c, s, j, q);
      var n: nat :| Rooted(c, s, i, p, k, n);
      var m: nat :| Rooted(c, s, j, q, k, m);
      RootedOnce(c, s, i, p, n, j, q, m, k);
    }
  }

  // ---- The effects of steps on the shared memory ----

  /** What a step may do to the shared memory, by the invariant. */
  ghost predicate Allowed(c: Config, s: State, t: nat, e: Effect) {
    match e
    case NoEffect => true
    case SetCell(i, p, cell) =>
      && i < s.numMaps && p < c.capacity(i) && t < |s.threads|
      && (cell.LockedCell? ==> cell.owner == t && CellAt(s, i, p) == EmptyCell && s.threads[t].op == Insert &&
                               s.threads[t].phase == TryLock && s.threads[t].sub == i && Position(c, s.threads[t]) == p)
      && (cell.EmptyCell? ==> CellAt(s, i, p) == LockedCell(t))
      && (cell.LiveCell? ==>
             CellAt(s, i, p) == LockedCell(t) && cell.key == s.threads[t].key && cell.born == s.clock + 1)
      && (cell.ErasedCell? ==> CellAt(s, i, p).LiveCell?)
    case SetFull(i, value) => i < s.numMaps && 1 <= value <= 2 && (value == 2 ==> Frozen(s, i))
    case AddPending(i, delta) => i < s.numMaps && -1 <= delta <= 1
    case SetSlot(i, slot) =>
      && i == s.numMaps && i < |s.slots|
      && s.slots[i] == (if slot == LockedPtr then NullPtr else LockedPtr) &&
          (slot == LockedPtr || slot == Allocated(NewSubMap(c, i)))
    case AddMap => s.numMaps < |s.slots| && s.slots[s.numMaps].Allocated?
  }

  lemma {:induction false} StepIsAllowed(c: Config, s: State, t: nat, choice: Choice)
    requires Inv(c, s) && t < |s.threads|
    ensures Allowed(c, s, t, Action(c, s, t, s.threads[t], choice).1)
  {
    hide LockOwned, LiveRooted, SearchFacts, DeadPrefix, SealedBelow;
    assert ThreadShape(c, s, s.threads[t]) && Grower(c, s, s.threads[t]) && InsertFacts(c, s, t, s.threads[t]);
    PositionInRange(c, s, s.threads[t]);
  }

  lemma {:induction false} PositionInRange(c: Config, s: State, th: Thread)
    requires c.Ok()
    ensures th.probe < c.capacity(th.sub) ==> Position(c, th) < c.capacity(th.sub)
  {
  }

  /** The shared memory after an effect, cell by cell. */
  ghost predicate View(s: State, s': State, e: Effect) {
    && (forall i: nat, p: nat {:trigger CellAt(s', i, p)} ::
          CellAt(s', i, p) == if e.SetCell? && e.i == i && e.p == p then e.cell else CellAt(s, i, p))
    && (forall i: nat {:trigger Sub(s', i)} ::
          && Sub(s', i).isFull == (if e.SetFull? && e.i == i then e.value else Sub(s, i).isFull)
          && Sub(s', i).pending == Sub(s, i).pending + if e.AddPending? && e.i == i then e.delta else 0)
    && s'.numMaps == s.numMaps + (if e.AddMap? then 1 else 0)
    && s'.clock == s.clock + 1 && |s'.threads| == |s.threads|
  }

  lemma {:induction false} CellAfter(c: Config, s: State, t: nat, e: Effect, i: nat, p: nat)
    requires Shape(c, s) && Allowed(c, s, t, e)
    ensures CellAt(Apply(s, e), i, p) == if e.SetCell? && e.i == i && e.p == p then e.cell else CellAt(s, i, p)
    ensures Sub(Apply(s, e), i).isFull == if e.SetFull? && e.i == i then e.value else Sub(s, i).isFull
    ensures Sub(Apply(s, e), i).pending == Sub(s, i).pending + if e.AddPending? && e.i == i then e.delta else 0
  {
    hide Frozen;
  }

  lemma {:induction false} StepView(c: Config, s: State, t: nat, choice: Choice)
    requires Inv(c, s) && t < |s.threads|
    ensures View(s, Step(c, s, t, choice), Action(c, s, t, s.threads[t], choice).1)
  {
    hide LockOwned, LiveRooted, SearchFacts, InsertFacts, Grower, ThreadShape, Allowed, Action, Shape;
    var e := Action(c, s, t, s.threads[t], choice).1;
    StepIsAllowed(c, s, t, choice);
    var s1 := Apply(s, e);
    var s' := Step(c, s, t, choice);
    SameSlots(s1, s');
    forall i: nat, p: nat
      ensures CellAt(s', i, p) == if e.SetCell? && e.i == i && e.p == p then e.cell else CellAt(s, i, p)
    {
      CellAfter(c, s, t, e, i, p);
    }
    forall i: nat
      ensures Sub(s', i).isFull == if e.SetFull? && e.i == i then e.value else Sub(s, i).isFull
      ensures Sub(s', i).pending == Sub(s, i).pending + if e.AddPending? && e.i == i then e.delta else 0
    {
      CellAfter(c, s, t, e, i, 0);
    }
  }

  lemma {:induction false} SameSlots(s: State, s': State)
    requires s.slots == s'.slots
    ensures forall i: nat :: Sub(s', i) == Sub(s, i)
    ensures forall i: nat, p: nat :: CellAt(s', i, p) == CellAt(s, i, p)
  {
  }

  lemma {:induction false} StepShape(c: Config, s: State, t: nat, choice: Choice)
    requires Inv(c, s) && t < |s.threads|
    ensures Shape(c, Step(c, s, t, choice))
  {
    hide LockOwned, LiveRooted, SearchFacts, InsertFacts, Grower, ThreadShape, Action;
    StepIsAllowed(c, s, t, choice);
  }

  // ---- What no step undoes ----

  /** s' is s after a step of thread t with this effect. */
  ghost predicate Moved(c: Config, s: State, s': State, t: nat, choice: Choice) {
    && t < |s.threads| && s' == Step(c, s, t, choice)
    && Allowed(c, s, t, Action(c, s, t, s.threads[t], choice).1)
    && View(s, s', Action(c, s, t, s.threads[t], choice).1)
  }

  lemma {:induction false} StepMoves(c: Config, s: State, t: nat, choice: Choice)
    requires Inv(c, s) && t < |s.threads|
    ensures Moved(c, s, Step(c, s, t, choice), t, choice)
  {
    hide Inv, Allowed, View, Step;
    StepIsAllowed(c, s, t, choice);
    StepView(c, s, t, choice);
  }

  lemma {:induction false} DeadStable(c: Config, s: State, s': State, t: nat, choice: Choice, i: nat, p: nat, k: nat)
    requires Moved(c, s, s', t, choice) && Dead(CellAt(s, i, p), k)
    ensures Dead(CellAt(s', i, p), k)
  {
    hide Step, Action, CellAt, Frozen;
  }

  lemma {:induction false} PrefixStable(c: Config, s: State, s': State, t: nat, choice: Choice, i: nat, k: nat, n: nat)
    requires Moved(c, s, s', t, choice) && DeadPrefix(c, s, i, k, n)
    ensures DeadPrefix(c, s', i, k, n)
  {
    hide Moved, CellAt, Dead, PathAt;
    forall m: nat | m < n
      ensures Dead(CellAt(s', i, PathAt(c, i, k, m)), k)
    {
      DeadStable(c, s, s', t, choice, i, PathAt(c, i, k, m), k);
    }
  }

  /** A thread commits itself only after it has seen the submap not full. */
  lemma {:induction false} CommitNeedsRoom(c: Config, s: State, t: nat, choice: Choice, i: nat)
    requires t < |s.threads| && Committed(Action(c, s, t, s.threads[t], choice).0, i)
    ensures Committed(s.threads[t], i) || Sub(s, i).isFull == 0
  {
    hide Sub, CellAt;
  }

  lemma {:induction false} FrozenStable(c: Config, s: State, s': State, t: nat, choice: Choice, i: nat)
    requires Moved(c, s, s', t, choice) && Frozen(s, i)
    ensures Frozen(s', i)
  {
    hide Action, Sub, CellAt, Committed, Allowed;
    FullStays(c, s, s', t, choice, i);
    forall u: nat | u < |s'.threads|
      ensures !Committed(s'.threads[u], i)
    {
      if u == t {
        if Committed(s'.threads[t], i) { CommitNeedsRoom(c, s, t, choice, i); }
      }
    }
  }

  lemma {:induction false} FullStays(c: Config, s: State, s': State, t: nat, choice: Choice, i: nat)
    requires Moved(c, s, s', t, choice)
    ensures Sub(s, i).isFull != 0 ==> Sub(s', i).isFull != 0
  {
    hide Action, Sub, CellAt, Step;
  }

  /** In a frozen submap an empty cell stays empty. */
  lemma {:induction false} EmptyStays(c: Config, s: State, s': State, t: nat, choice: Choice, i: nat, p: nat)
    requires Moved(c, s, s', t, choice) && Frozen(s, i) && CellAt(s, i, p) == EmptyCell
    ensures CellAt(s', i, p) == EmptyCell
  {
    hide Action, Sub, CellAt, Step;
  }

  lemma {:induction false} SealedStable(c: Config, s: State, s': State, t: nat, choice: Choice, i: nat, k: nat)
    requires Moved(c, s, s', t, choice) && Sealed(c, s, i, k)
    ensures Sealed(c, s', i, k)
  {
    hide Moved, CellAt, PathAt, Frozen, DeadPrefix;
    var n: nat :| SealedAt(c, s, i, k, n);
    PrefixStable(c, s, s', t, choice, i, k, n);
    if n < |c.probe(i, k)| {
      FrozenStable(c, s, s', t, choice, i);
      EmptyStays(c, s, s', t, choice, i, PathAt(c, i, k, n));
    }
    assert SealedAt(c, s', i, k, n);
  }

  lemma {:induction false} SealedBelowStable(c: Config, s: State, s': State, t: nat, choice: Choice, k: nat, j: nat)
    requires Moved(c, s, s', t, choice) && SealedBelow(c, s, k, j)
    ensures SealedBelow(c, s', k, j)
  {
    hide Moved, Sealed;
    forall i: nat | i < j
      ensures Sealed(c, s', i, k)
    {
      SealedStable(c, s, s', t, choice, i, k);
    }
  }
}
