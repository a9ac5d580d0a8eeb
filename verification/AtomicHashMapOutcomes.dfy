/** What the answers of the hash map mean: each is justified by a moment of the operation, or by a step of its own. */
module AtomicHashMapOutcomes {
  import opened AtomicHashMap
  import opened AtomicHashMapInvariant
  import opened AtomicHashMapSafety

  /** The cell the thread is looking at is live with its key. */
  ghost predicate HoldsKey(c: Config, s: State, th: Thread) {
    CellAt(s, th.sub, Position(c, th)).LiveCell? && CellAt(s, th.sub, Position(c, th)).key == th.key
  }

  // ---- The steps that count ----

  /** Thread t takes the step from s to s' and makes its key live in the cell it has locked; the key was in no cell. */
  ghost predicate Inserts(c: Config, s: State, s': State, t: nat, th: Thread) {
    && (exists choice :: Moved(c, s, s', t, choice)) && s.threads[t].op == Insert && s.threads[t].phase == WriteValue
    && !Present(s, th.key) && CellAt(s, th.sub, Position(c, th)) == LockedCell(t) && HoldsKey(c, s', th)
  }

  /** Thread t takes the step from s to s' and erases its key from the cell that holds it; then the key is in no
      cell. */
  ghost predicate Erases(c: Config, s: State, s': State, t: nat, th: Thread) {
    && (exists choice :: Moved(c, s, s', t, choice)) && s.threads[t].op == Erase && s.threads[t].phase == EraseCas
    && HoldsKey(c, s, th) && CellAt(s', th.sub, Position(c, th)) == ErasedCell && !Present(s', th.key)
  }

  /** Thread t takes the step from s to s', in which the constructor of the value throws, and gives the cell back. */
  ghost predicate Throws(c: Config, s: State, s': State, t: nat, th: Thread) {
    && (exists choice :: Moved(c, s, s', t, choice) && choice.flag)
    && s.threads[t].op == Insert && s.threads[t].phase == WriteValue
    && CellAt(s, th.sub, Position(c, th)) == LockedCell(t) && CellAt(s', th.sub, Position(c, th)) == EmptyCell
  }

  ghost predicate KeySeen(c: Config, run: seq<State>, n: nat, th: Thread)
    requires n < |run|
  {
    exists m: nat :: th.began < m <= n && HoldsKey(c, run[m], th)
  }

  ghost predicate InsertSeen(c: Config, run: seq<State>, n: nat, t: nat, th: Thread)
    requires n < |run|
  {
    exists m: nat :: th.began < m < n && Inserts(c, run[m], run[m + 1], t, th)
  }

  ghost predicate EraseSeen(c: Config, run: seq<State>, n: nat, t: nat, th: Thread)
    requires n < |run|
  {
    exists m: nat :: th.began < m < n && Erases(c, run[m], run[m + 1], t, th)
  }

  ghost predicate ThrowSeen(c: Config, run: seq<State>, n: nat, t: nat, th: Thread)
    requires n < |run|
  {
    exists m: nat :: th.began < m < n && Throws(c, run[m], run[m + 1], t, th)
  }

  /** Nothing has happened to the thread yet. */
  ghost predicate Idle(run: seq<State>, n: nat, t: nat)
    requires n < |run|
  {
    forall m: nat :: m <= n ==> t < |run[m].threads| && run[m].threads[t].phase == Done
  }

  /** The operation has an answer of its own kind, and a reason for it. */
  ghost predicate Justified(c: Config, run: seq<State>, n: nat, t: nat, th: Thread)
    requires n < |run|
  {
    match th.outcome
    case Nothing => Idle(run, n, t)
    case Inserted => th.op == Insert && InsertSeen(c, run, n, t, th)
    case AlreadyThere => th.op == Insert && KeySeen(c, run, n, th)
    case MapFull =>
      th.op == Insert && 0 < th.limit && (th.limit >= c.numSubMaps || !c.canGrow) &&
      SealedBelow(c, run[n], th.key, th.limit)
    case Thrown => th.op == Insert && ThrowSeen(c, run, n, t, th)
    case Found => th.op == Find && KeySeen(c, run, n, th)
    case Removed => th.op == Erase && EraseSeen(c, run, n, t, th)
    case NotFound => th.op != Insert
  }

  /** What a thread has done or seen since its operation began. */
  ghost predicate Record(c: Config, run: seq<State>, n: nat, t: nat, th: Thread)
    requires n < |run|
  {
    && (th.op == Insert && th.phase in {DecPendingDone, CountEntry, StoreNoNewInserts} ==>
          InsertSeen(c, run, n, t, th))
    && (th.op == Insert && th.phase == DecPendingThrown ==> ThrowSeen(c, run, n, t, th))
    && if th.phase == Done then Justified(c, run, n, t, th) else th.began < n
  }

  // ---- Single steps ----

  lemma {:induction false} KeptByOthers(c: Config, run: seq<State>, n: nat, u: nat, choice: Choice, t: nat)
    requires n + 1 < |run| && Moved(c, run[n], run[n + 1], u, choice) && u != t && t < |run[n].threads|
    requires Record(c, run, n, t, run[n].threads[t])
    ensures t < |run[n + 1].threads| && Record(c, run, n + 1, t, run[n + 1].threads[t])
  {
    hide Moved, SealedBelow, Inserts, Erases, Throws, HoldsKey;
    var th := run[n].threads[t];
    NumMapsGrow(c, run[n], run[n + 1], u, choice);
    if th.phase == Done && th.outcome == MapFull {
      SealedBelowStable(c, run[n], run[n + 1], u, choice, th.key, th.limit);
    }
  }

  /** The write makes the key live where it was not. */
  lemma {:induction false} WriteInserts(c: Config, s: State, s': State, t: nat, choice: Choice)
    requires Inv(c, s) && Inv(c, s') && Moved(c, s, s', t, choice)
    requires s.threads[t].op == Insert && s.threads[t].phase == WriteValue && !choice.flag
    ensures Inserts(c, s, s', t, s.threads[t])
  {
    hide CellAt, Sub, Position, PathAt, Inv, Shape, ThreadShape;
    var th := s.threads[t];
    InvKnown(c, s, t);
    InvMeansUnique(c, s');
    WrittenCell(c, s, s', t, choice);
    forall i: nat, p: nat
      ensures !(CellAt(s, i, p).LiveCell? && CellAt(s, i, p).key == th.key)
    {
      assert CellAt(s', i, p) == CellAt(s, i, p) || (i == th.sub && p == Position(c, th));
    }
  }

  lemma {:induction false} WrittenCell(c: Config, s: State, s': State, t: nat, choice: Choice)
    requires Known(c, s, t) && Moved(c, s, s', t, choice)
    requires s.threads[t].op == Insert && s.threads[t].phase == WriteValue
    ensures var th := s.threads[t];
            && CellAt(s, th.sub, Position(c, th)) == LockedCell(t)
            && CellAt(s', th.sub, Position(c, th)) == (if choice.flag then EmptyCell else LiveCell(th.key, s.clock + 1))
            && forall i: nat, p: nat :: i != th.sub || p != Position(c, th) ==> CellAt(s', i, p) == CellAt(s, i, p)
  {
    hide CellAt, Sub, Position, PathAt, Shape, ThreadShape, Learnt;
  }

  lemma {:induction false} WriteThrows(c: Config, s: State, s': State, t: nat, choice: Choice)
    requires Known(c, s, t) && Moved(c, s, s', t, choice)
    requires s.threads[t].op == Insert && s.threads[t].phase == WriteValue && choice.flag
    ensures Throws(c, s, s', t, s.threads[t])
  {
    hide CellAt, Sub, Position, PathAt, Shape, ThreadShape, Learnt, Moved;
    WrittenCell(c, s, s', t, choice);
  }

  /** The exchange takes the key out of the only cell that had it. */
  lemma {:induction false} ExchangeErases(c: Config, s: State, s': State, t: nat, choice: Choice)
    requires Inv(c, s) && Moved(c, s, s', t, choice)
    requires s.threads[t].op == Erase && s.threads[t].phase == EraseCas && HoldsKey(c, s, s.threads[t])
    ensures Erases(c, s, s', t, s.threads[t])
  {
    hide CellAt, Sub, Position, PathAt, Inv;
    var th := s.threads[t];
    InvMeansUnique(c, s);
    ErasedHere(c, s, s', t, choice);
    forall i: nat, p: nat
      ensures !(CellAt(s', i, p).LiveCell? && CellAt(s', i, p).key == th.key)
    {
      assert CellAt(s', i, p) == CellAt(s, i, p) || (i == th.sub && p == Position(c, th));
    }
  }

  lemma {:induction false} ErasedHere(c: Config, s: State, s': State, t: nat, choice: Choice)
    requires Moved(c, s, s', t, choice)
    requires s.threads[t].op == Erase && s.threads[t].phase == EraseCas && HoldsKey(c, s, s.threads[t])
    ensures var th := s.threads[t];
            && CellAt(s', th.sub, Position(c, th)) == ErasedCell
            && forall i: nat, p: nat :: i != th.sub || p != Position(c, th) ==> CellAt(s', i, p) == CellAt(s, i, p)
  {
    hide CellAt, Sub, Position, PathAt;
  }

  /** What an insert can end with, and what it must have seen then. */
  lemma {:induction false} InsertEnds(c: Config, s: State, t: nat, choice: Choice)
    requires t < |s.threads| && s.threads[t].op == Insert && s.threads[t].phase != Done
    ensures var th := s.threads[t]; var th' := InsertAction(c, s, t, th, choice).0;
            && th'.op == th.op && th'.key == th.key && th'.began == th.began
            && (th'.phase in {DecPendingDone, CountEntry, StoreNoNewInserts, DecPendingThrown} ==>
                  th'.sub == th.sub && th'.probe == th.probe)
            && (th'.phase == DecPendingDone ==> th.phase == WriteValue && !choice.flag)
            && (th'.phase == DecPendingThrown ==> th.phase == WriteValue && choice.flag)
            && (th'.phase == CountEntry ==> th.phase == DecPendingDone)
            && (th'.phase == StoreNoNewInserts ==> th.phase == CountEntry)
            && (th'.phase == Done ==> EndsInsert(c, s, th, th'))
  {
    hide CellAt, Sub, Position, PathAt;
  }

  ghost predicate EndsInsert(c: Config, s: State, th: Thread, th': Thread) {
    && th'.sub == th.sub && th'.probe == th.probe && th'.limit == th.limit
    && match th'.outcome
       case Inserted => th.phase == CountEntry || th.phase == StoreNoNewInserts
       case AlreadyThere => th.phase == CompareKey && HoldsKey(c, s, th)
       case Thrown => th.phase == DecPendingThrown
       case MapFull =>
         && (th.phase == RereadKey || th.phase == CompareKey) && th.sub + 1 == th.limit
         && (th.limit >= c.numSubMaps || !c.canGrow)
         && (if th.phase == RereadKey then CellAt(s, th.sub, Position(c, th)) == EmptyCell
             else Dead(CellAt(s, th.sub, Position(c, th)), th.key) && th.probe + 1 >= c.capacity(th.sub))
       case _ => false
  }

  lemma {:induction false} SearchEnds(c: Config, s: State, t: nat)
    requires t < |s.threads| && s.threads[t].op != Insert && s.threads[t].phase != Done && Known(c, s, t)
    ensures var th := s.threads[t]; var th' := SearchAction(c, s, th).0;
            && th'.op == th.op && th'.key == th.key && th'.began == th.began
            && (th'.phase == Done ==>
                  || th'.outcome == NotFound
                  || (th'.sub == th.sub && th'.probe == th.probe && HoldsKey(c, s, th) &&
                      if th.op == Find then th'.outcome == Found && th.phase == FindKey
                      else th'.outcome == Removed && th.phase == EraseCas))
  {
    hide CellAt, Sub, Position, PathAt, Shape, Grower, InsertFacts;
  }

  /** An insert that gives up has found its key sealed off in every submap it knew of. */
  lemma {:induction false} GivesUpSealed(c: Config, s: State, t: nat, th': Thread)
    requires Known(c, s, t) && s.threads[t].op == Insert && EndsInsert(c, s, s.threads[t], th')
    requires th'.outcome == MapFull
    ensures SealedBelow(c, s, s.threads[t].key, s.threads[t].limit)
  {
    hide CellAt, Sub, PathAt, Frozen, DeadPrefix, SealedBelow, Grower;
    var th := s.threads[t];
    if th.phase == RereadKey {
      SealHere(c, s, th, th.probe);
    } else {
      LongerPrefix(c, s, th.sub, th.key, th.probe);
      SealHere(c, s, th, th.probe + 1);
    }
  }

  // ---- Every run ----

  ghost predicate Live(c: Config, run: seq<State>, n: nat, t: nat) {
    && c.Ok() && Reachable(c, run) && n < |run| && t < |run[n].threads|
    && Inv(c, run[n]) && run[n].clock == n && Record(c, run, n, t, run[n].threads[t])
  }

  /** The record after a step of the thread itself, by the kind of operation. */
  lemma {:induction false} InsertRecord(c: Config, run: seq<State>, n: nat, t: nat, choice: Choice)
    requires Live(c, run, n, t) && n + 1 < |run| && Inv(c, run[n + 1]) && Moved(c, run[n], run[n + 1], t, choice)
    requires run[n].threads[t].op == Insert && run[n].threads[t].phase != Done
    ensures Record(c, run, n + 1, t, InsertAction(c, run[n], t, run[n].threads[t], choice).0)
  {
    hide CellAt, Sub, Position, PathAt, Inv, Reachable, InsertAction, Inserts, Throws, HoldsKey, Moved, SealedBelow;
    var th := run[n].threads[t];
    var th' := InsertAction(c, run[n], t, th, choice).0;
    InvKnown(c, run[n], t);
    InsertEnds(c, run[n], t, choice);
    SamePlace(c, run[n], run[n + 1], t, th, th');
    SamePlaceAt(c, run, n, t, th, th');
    if th.phase == WriteValue && !choice.flag { WriteInserts(c, run[n], run[n + 1], t, choice); }
    if th.phase == WriteValue && choice.flag { WriteThrows(c, run[n], run[n + 1], t, choice); }
    if th'.phase == Done && th'.outcome == MapFull {
      GivesUpSealed(c, run[n], t, th');
      SealedBelowStable(c, run[n], run[n + 1], t, choice, th.key, th.limit);
    }
  }

  /** A thread that keeps its place keeps what it has seen there. */
  lemma {:induction false} SamePlace(c: Config, s: State, s': State, t: nat, th: Thread, th': Thread)
    requires th'.key == th.key
    ensures th'.sub == th.sub && th'.probe == th.probe ==>
              && HoldsKey(c, s, th') == HoldsKey(c, s, th) && Inserts(c, s, s', t, th') == Inserts(c, s, s', t, th)
              && Erases(c, s, s', t, th') == Erases(c, s, s', t, th)
              && Throws(c, s, s', t, th') == Throws(c, s, s', t, th)
  {
    hide CellAt, Moved, Present;
  }

  lemma {:induction false} SamePlaceAt(c: Config, run: seq<State>, n: nat, t: nat, th: Thread, th': Thread)
    requires n < |run| && th'.key == th.key && th'.began == th.began
    ensures th'.sub == th.sub && th'.probe == th.probe && InsertSeen(c, run, n, t, th) ==> InsertSeen(c, run, n, t, th')
    ensures th'.sub == th.sub && th'.probe == th.probe && ThrowSeen(c, run, n, t, th) ==> ThrowSeen(c, run, n, t, th')
  {
    hide Inserts, Throws;
    if m: nat :| th.began < m < n && Inserts(c, run[m], run[m + 1], t, th) {
      SamePlace(c, run[m], run[m + 1], t, th, th');
    }
    if m: nat :| th.began < m < n && Throws(c, run[m], run[m + 1], t, th) {
      SamePlace(c, run[m], run[m + 1], t, th, th');
    }
  }

  lemma {:induction false} SearchRecord(c: Config, run: seq<State>, n: nat, t: nat, choice: Choice)
    requires Live(c, run, n, t) && n + 1 < |run| && Moved(c, run[n], run[n + 1], t, choice)
    requires run[n].threads[t].op != Insert && run[n].threads[t].phase != Done
    ensures Record(c, run, n + 1, t, SearchAction(c, run[n], run[n].threads[t]).0)
  {
    hide CellAt, Sub, Position, PathAt, Inv, Reachable, SearchAction, Erases, HoldsKey, Moved;
    var th := run[n].threads[t];
    var th' := SearchAction(c, run[n], th).0;
    InvKnown(c, run[n], t);
    SearchEnds(c, run[n], t);
    SamePlace(c, run[n], run[n + 1], t, th, th');
    if th'.phase == Done && th'.outcome == Removed { ExchangeErases(c, run[n], run[n + 1], t, choice); }
  }

  lemma {:induction false} OwnRecord(c: Config, run: seq<State>, n: nat, t: nat, choice: Choice)
    requires Live(c, run, n, t) && n + 1 < |run| && Inv(c, run[n + 1]) && Moved(c, run[n], run[n + 1], t, choice)
    ensures t < |run[n + 1].threads| && Record(c, run, n + 1, t, run[n + 1].threads[t])
  {
    hide Inv, Reachable, InsertAction, SearchAction, Moved, Justified, InsertSeen, ThrowSeen;
    NumMapsGrow(c, run[n], run[n + 1], t, choice);
    if run[n].threads[t].phase != Done {
      if run[n].threads[t].op == Insert {
        InsertRecord(c, run, n, t, choice);
      } else {
        SearchRecord(c, run, n, t, choice);
      }
    }
  }

  /** In every state of every run, every thread's record is right. */
  lemma {:induction false} RunRecord(c: Config, run: seq<State>, n: nat, t: nat)
    requires c.Ok() && Reachable(c, run) && n < |run| && t < |run[n].threads|
    ensures Live(c, run, n, t)
    decreases n
  {
    hide Inv, Action, Moved, Record, Step;
    RunKeepsInv(c, run, n);
    if n == 0 {
      FirstRecord(c, run, t);
    } else {
      assert Next(c, run[n - 1], run[n]);
      var u: nat, choice :| u < |run[n - 1].threads| && run[n] == Step(c, run[n - 1], u, choice);
      RunKeepsInv(c, run, n - 1);
      StepMoves(c, run[n - 1], u, choice);
      NumMapsGrow(c, run[n - 1], run[n], u, choice);
      RunRecord(c, run, n - 1, t);
      if u == t {
        OwnRecord(c, run, n - 1, t, choice);
      } else {
        Unmoved(c, run, n - 1, u, choice, t);
      }
    }
  }

  lemma {:induction false} Unmoved(c: Config, run: seq<State>, n: nat, u: nat, choice: Choice, t: nat)
    requires Live(c, run, n, t) && n + 1 < |run| && Moved(c, run[n], run[n + 1], u, choice) && u != t
    ensures t < |run[n + 1].threads| && Record(c, run, n + 1, t, run[n + 1].threads[t])
  {
    hide Inv, Reachable, Moved, Record;
    KeptByOthers(c, run, n, u, choice, t);
  }

  lemma {:induction false} FirstRecord(c: Config, run: seq<State>, t: nat)
    requires c.Ok() && Reachable(c, run) && t < |run[0].threads|
    ensures Record(c, run, 0, t, run[0].threads[t])
  {
  }

  /** Whatever an operation answers is justified. An insert that has added its key did so in a step of its own, at which
      the key was in no cell, and one that finds the key already there, like a find that succeeds, has seen the cell it
      returns live with that key; an erase that succeeds has erased the key in a step of its own, after which it is in
      no cell; an exception came from a constructor. */
  lemma {:induction false} AnswerIsJustified(c: Config, run: seq<State>, n: nat, t: nat)
    requires c.Ok() && Reachable(c, run) && n < |run| && t < |run[n].threads| && run[n].threads[t].phase == Done
    ensures Justified(c, run, n, t, run[n].threads[t])
  {
    hide Inv, Reachable, Justified;
    RunRecord(c, run, n, t);
  }

  // ---- Running out of submaps ----

  /** A map that must not grow has one submap and nobody trying to add another. */
  ghost predicate Single(c: Config, s: State) {
    !c.canGrow ==> s.numMaps == 1 && forall t: nat :: t < |s.threads| && s.threads[t].op == Insert ==>
      !Growing(s.threads[t].phase)
  }

  lemma {:induction false} StaysSingle(c: Config, s: State, s': State, t: nat, choice: Choice)
    requires Moved(c, s, s', t, choice) && Single(c, s)
    ensures Single(c, s')
  {
    hide Moved, CellAt, Sub, Position;
    NumMapsGrow(c, s, s', t, choice);
    StepNumMaps(c, s, s', t, choice);
    if !c.canGrow { OwnGrowing(c, s, t, choice); }
  }

  lemma {:induction false} StepNumMaps(c: Config, s: State, s': State, t: nat, choice: Choice)
    requires Moved(c, s, s', t, choice)
    ensures t < |s.threads|
    ensures s'.numMaps == s.numMaps + if Action(c, s, t, s.threads[t], choice).1.AddMap? then 1 else 0
  {
    hide Action, Allowed, Step;
  }

  lemma {:induction false} OwnGrowing(c: Config, s: State, t: nat, choice: Choice)
    requires t < |s.threads| && !c.canGrow && (s.threads[t].op == Insert ==> !Growing(s.threads[t].phase))
    ensures var (th, e) := Action(c, s, t, s.threads[t], choice);
            (th.op == Insert ==> !Growing(th.phase)) && !e.AddMap?
  {
    hide CellAt, Sub, Position, PathAt;
  }

  lemma {:induction false} RunSingle(c: Config, run: seq<State>, n: nat)
    requires c.Ok() && Reachable(c, run) && n < |run|
    ensures Single(c, run[n])
    decreases n
  {
    hide Inv, Action, Moved, Step;
    if n > 0 {
      RunSingle(c, run, n - 1);
      RunKeepsInv(c, run, n - 1);
      assert Next(c, run[n - 1], run[n]);
      var t: nat, choice :| t < |run[n - 1].threads| && run[n] == Step(c, run[n - 1], t, choice);
      StepMoves(c, run[n - 1], t, choice);
      StaysSingle(c, run[n - 1], run[n], t, choice);
    }
  }

  /** An insert that reports a full map is right: its key is sealed off in every submap there is, so it is in no cell
      and cannot become live, and no submap can be added any more. */
  lemma {:induction false} FullMapIsFull(c: Config, run: seq<State>, n: nat, t: nat)
    requires c.Ok() && Reachable(c, run) && n < |run| && t < |run[n].threads|
    requires run[n].threads[t].phase == Done && run[n].threads[t].outcome == MapFull
    ensures run[n].numMaps >= c.numSubMaps || !c.canGrow
    ensures SealedBelow(c, run[n], run[n].threads[t].key, run[n].numMaps) && !Present(run[n], run[n].threads[t].key)
  {
    hide Reachable, CellAt, Sub, Frozen, Sealed, InsertFacts, Grower, SearchFacts, LockOwned, Rooted;
    var s, k := run[n], run[n].threads[t].key;
    AnswerIsJustified(c, run, n, t);
    RunSingle(c, run, n);
    RunKeepsInv(c, run, n);
    assert ThreadShape(c, s, s.threads[t]);
    forall i: nat, p: nat
      ensures !(CellAt(s, i, p).LiveCell? && CellAt(s, i, p).key == k)
    {
      SealedIsAbsent(c, s, k, i, p);
    }
  }

  lemma {:induction false} SealedIsAbsent(c: Config, s: State, k: nat, i: nat, p: nat)
    requires LiveRooted(c, s, i, p) && SealedBelow(c, s, k, s.numMaps)
    ensures !(CellAt(s, i, p).LiveCell? && CellAt(s, i, p).key == k)
  {
    hide CellAt, Sub, Frozen, Sealed, Rooted;
    if CellAt(s, i, p).LiveCell? && CellAt(s, i, p).key == k {
      var n: nat :| Rooted(c, s, i, p, k, n);
      SealedMeansAbsent(c, s, i, k, p, n);
    }
  }
}
