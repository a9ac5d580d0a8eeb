/** How many steps an operation of the growing hash map takes. Find and erase never wait. An insert waits only for a
    thread that can move, and starts over at a cell only if another thread has changed it. */
module AtomicHashMapProgress {
  import opened AtomicHashMap
  import opened AtomicHashMapInvariant
  import opened AtomicHashMapSafety

  // ---- Counting ----

  /** Thread t does something from state m to the next. */
  predicate MovesAt(run: seq<State>, m: nat, t: nat) {
    m + 1 < |run| && t < |run[m].threads| && t < |run[m + 1].threads| && run[m].threads[t] != run[m + 1].threads[t]
  }

  /** How often it does from state m to state n. */
  function Moves(run: seq<State>, m: nat, n: nat, t: nat): nat
    requires m <= n
  {
    if m == n then 0 else Moves(run, m, n - 1, t) + if MovesAt(run, n - 1, t) then 1 else 0
  }

  /** Another thread changes the cell that thread t is looking at. */
  predicate Intrusion(c: Config, run: seq<State>, m: nat, t: nat) {
    && m + 1 < |run| && t < |run[m].threads| && t < |run[m + 1].threads| && run[m].threads[t] == run[m + 1].threads[t]
    && var th := run[m].threads[t];
       CellAt(run[m], th.sub, Position(c, th)) != CellAt(run[m + 1], th.sub, Position(c, th))
  }

  function Intrusions(c: Config, run: seq<State>, m: nat, n: nat, t: nat): nat
    requires m <= n
  {
    if m == n then 0 else Intrusions(c, run, m, n - 1, t) + if Intrusion(c, run, n - 1, t) then 1 else 0
  }

  /** Thread t finds that the submap still has pending inserts. */
  predicate SpinsAt(run: seq<State>, m: nat, t: nat) {
    MovesAt(run, m, t) && run[m].threads[t].phase == SpinPending && Sub(run[m], run[m].threads[t].sub).pending != 0
  }

  function Spins(run: seq<State>, m: nat, n: nat, t: nat): nat
    requires m <= n
  {
    if m == n then 0 else Spins(run, m, n - 1, t) + if SpinsAt(run, n - 1, t) then 1 else 0
  }

  // ---- What is left to do ----

  /** At most twelve steps at each cell of the submaps from i on, and four to make a new one. */
  function RestOf(c: Config, i: nat): nat
    decreases c.numSubMaps - i
  {
    if i >= c.numSubMaps then 0 else 12 * c.capacity(i) + 4 + RestOf(c, i + 1)
  }

  /** The steps at this cell. */
  function AtCell(phase: Phase): nat {
    match phase
    case ReadKey => 12
    case IncPending => 11
    case CheckFull => 10
    case DecPendingFull => 9
    case SpinFull => 8
    case SpinPending => 7
    case StoreFull => 6
    case RereadKey => 5
    case TryLock => 9
    case WriteValue => 8
    case DecPendingLost => 4
    case WaitUnlocked => 3
    case CompareKey => 2
    case EraseKey => 3
    case _ => 2
  }

  /** From this probe on, to the last submap. */
  function FromHere(c: Config, th: Thread): nat {
    AtCell(th.phase) + 12 * (if th.probe < c.capacity(th.sub) then c.capacity(th.sub) - th.probe - 1 else 0) +
    RestOf(c, th.sub + 1)
  }

  /** An insert that finds the submap it has waited for full begins again, with more submaps. */
  function RoundsLeft(c: Config, limit: nat): nat {
    (if limit < c.numSubMaps then c.numSubMaps - limit else 0) * RestOf(c, 0)
  }

  function SearchCost(c: Config, th: Thread): nat {
    match th.phase
    case FindLoadMaps => RestOf(c, 1) + 1
    case LoadMaps => RestOf(c, 0)
    case _ => FromHere(c, th)
  }

  /** From the beginning of the submap that the thread makes or waits for. */
  function NewMap(c: Config, i: nat): nat {
    12 * c.capacity(i) + RestOf(c, i + 1)
  }

  /** Without the rounds that may follow. */
  function InsertCost(c: Config, th: Thread): nat {
    match th.phase
    case LoadMaps => 1
    case TryLockMap => NewMap(c, th.limit) + 3
    case AllocateMap => NewMap(c, th.limit) + 2
    case WaitMap => NewMap(c, th.limit) + 2
    case PublishMap => NewMap(c, th.limit) + 1
    case DecPendingThrown => 1
    case DecPendingDone => 3
    case CountEntry => 2
    case StoreNoNewInserts => 1
    case _ => FromHere(c, th)
  }

  function Cost(c: Config, th: Thread): nat {
    if th.phase == Done then 0
    else if th.op == Insert then RoundsLeft(c, th.limit) + InsertCost(c, th)
    else SearchCost(c, th)
  }

  /** The thread believes the cell to be taken, and it is not any more, or is again. */
  predicate Disturbed(c: Config, s: State, th: Thread) {
    var cell := CellAt(s, th.sub, Position(c, th));
    th.op == Insert &&
      (((th.phase == DecPendingLost || th.phase == WaitUnlocked) && cell == EmptyCell) ||
       (th.phase == CompareKey && (cell == EmptyCell || cell.LockedCell?)))
  }

  const AGAIN: nat := 11

  function Due(c: Config, s: State, th: Thread): nat {
    Cost(c, th) + if Disturbed(c, s, th) then AGAIN else 0
  }

  /** An insert that loads the submaps will find more of them than before. */
  ghost predicate MoreMaps(s: State, th: Thread) {
    th.op == Insert && th.phase == LoadMaps ==> th.limit < s.numMaps
  }

  // ---- One step ----

  lemma {:induction false} RestStep(c: Config, i: nat)
    requires i < c.numSubMaps
    ensures RestOf(c, i) == 12 * c.capacity(i) + 4 + RestOf(c, i + 1)
  {
  }

  /** The beginning of a submap costs less than the submap. */
  lemma {:induction false} StartOfMap(c: Config, th: Thread)
    requires c.Ok() && th.sub < c.numSubMaps && th.probe == 0
    ensures FromHere(c, th) == RestOf(c, th.sub) + AtCell(th.phase) - 16
  {
    RestStep(c, th.sub);
  }

  /** Another probe costs less than what it needed to find that there is nothing at this one. */
  lemma {:induction false} NextProbeCost(c: Config, th: Thread, phase: Phase)
    requires th.probe + 1 < c.capacity(th.sub)
    ensures FromHere(c, th.(probe := th.probe + 1, phase := phase)) == FromHere(c,
        th) - AtCell(th.phase) + AtCell(phase) - 12
  {
    hide AtCell, RestOf;
  }

  lemma {:induction false} AtLeastHere(c: Config, th: Thread)
    ensures FromHere(c, th) >= AtCell(th.phase) + RestOf(c, th.sub + 1)
  {
    hide AtCell, RestOf;
  }

  lemma {:induction false} OtherPhase(c: Config, th: Thread, phase: Phase)
    ensures FromHere(c, th.(phase := phase)) == FromHere(c, th) - AtCell(th.phase) + AtCell(phase)
  {
    hide AtCell, RestOf;
  }

  lemma {:induction false} SameOp(c: Config, th: Thread, phase: Phase)
    ensures SearchNext(th).op == th.op && NextProbe(c, th, phase, SearchNext(th)).op == th.op
  {
  }

  lemma {:induction false} SearchNextCost(c: Config, s: State, t: nat)
    requires Known(c, s, t) && s.threads[t].phase in {FindKey, EraseKey, EraseCas} && s.threads[t].op != Insert
    ensures Cost(c, SearchNext(s.threads[t])) <= RestOf(c, s.threads[t].sub + 1) + 1
  {
    hide Grower, InsertFacts, RestOf, FromHere;
    var th := s.threads[t];
    if th.sub + 1 < th.limit { StartOfMap(c, SearchNext(th)); }
  }

  lemma {:induction false} NextProbePays(c: Config, s: State, t: nat)
    requires Known(c, s, t) && s.threads[t].phase in {FindKey, EraseKey} && s.threads[t].op != Insert
    ensures var th := s.threads[t];
            Cost(c, NextProbe(c, th, th.phase, SearchNext(th))) < Cost(c, th)
  {
    hide Grower, InsertFacts, RestOf, FromHere, SearchNext;
    var th := s.threads[t];
    AtLeastHere(c, th);
    SearchNextCost(c, s, t);
    if th.probe + 1 < c.capacity(th.sub) { NextProbeCost(c, th, th.phase); }
  }

  /** Find and erase. */
  lemma {:induction false} SearchPays(c: Config, s: State, t: nat, choice: Choice)
    requires Known(c, s, t) && s.threads[t].phase != Done && s.threads[t].op != Insert
    ensures var th := s.threads[t]; var th' := Action(c, s, t, th, choice).0;
            th'.op == th.op && Cost(c, th') < Cost(c, th)
  {
    hide CellAt, Position, Grower, InsertFacts, RestOf, FromHere, SearchNext, NextProbe;
    var th := s.threads[t];
    AtLeastHere(c, th);
    if th.phase in {FindKey, EraseKey, EraseCas} { SearchNextCost(c, s, t); }
    if th.phase in {FindKey, EraseKey} { NextProbePays(c, s, t); }
    SameOp(c, th, th.phase);
    if th.phase == EraseKey { OtherPhase(c, th, EraseCas); }
    if th.phase == FindLoadMaps && 1 < s.numMaps {
      StartOfMap(c, th.(limit := s.numMaps, sub := 1, probe := 0, phase := FindKey));
    }
    if th.phase == LoadMaps { StartOfMap(c, th.(limit := s.numMaps, sub := 0, probe := 0, phase := EraseKey)); }
  }

  // ---- One step of an insert ----

  lemma {:induction false} NextMapCost(c: Config, s: State, t: nat)
    requires Known(c, s, t) && s.threads[t].op == Insert && Probing(s.threads[t].phase)
    ensures var th := s.threads[t]; var th' := NextMap(c, th);
            th'.op == Insert && Due(c, s, th') < Cost(c, th) && MoreMaps(s, th')
  {
    hide Grower, InsertFacts, RestOf, FromHere, CellAt, Position, RoundsLeft, InsertCost, NewMap, Disturbed;
    var th := s.threads[t];
    AtLeastHere(c, th);
    ProbingCost(c, th);
    Calm(c, s, NextMap(c, th));
    if th.sub + 1 < th.limit {
      StartOfMap(c, NextMap(c, th));
      ProbingCost(c, NextMap(c, th));
    } else if th.sub + 1 == th.limit && th.limit < c.numSubMaps {
      NewMapCost(c, th);
    } else {
      FirstLoad(c, th);
    }
  }

  lemma {:induction false} ProbingCost(c: Config, th: Thread)
    requires th.op == Insert && Probing(th.phase)
    ensures InsertCost(c, th) == FromHere(c, th) && 2 <= AtCell(th.phase)
  {
    hide FromHere;
  }

  lemma {:induction false} Calm(c: Config, s: State, th: Thread)
    requires th.phase in {ReadKey, LoadMaps, TryLockMap, Done}
    ensures Due(c, s, th) == Cost(c, th)
  {
    hide CellAt, Position, Cost;
  }

  lemma {:induction false} NewMapCost(c: Config, th: Thread)
    requires th.limit < c.numSubMaps
    ensures InsertCost(c, th.(phase := TryLockMap)) < RestOf(c, th.limit)
  {
    hide RestOf;
    RestStep(c, th.limit);
  }

  lemma {:induction false} FirstLoad(c: Config, th: Thread)
    ensures InsertCost(c, th.(phase := LoadMaps)) == 1
  {
    hide FromHere;
  }

  /** The next probe, or the next submap. */
  lemma {:induction false} InsertNext(c: Config, s: State, t: nat)
    requires Known(c, s, t) && s.threads[t].op == Insert && s.threads[t].phase == CompareKey
    ensures var th := s.threads[t]; var th' := NextProbe(c, th, ReadKey, NextMap(c, th));
            th'.op == Insert && Due(c, s, th') < Cost(c, th) && MoreMaps(s, th')
  {
    hide Grower, InsertFacts, RestOf, FromHere, CellAt, Position, NextMap, RoundsLeft;
    var th := s.threads[t];
    NextMapCost(c, s, t);
    if th.probe + 1 < c.capacity(th.sub) { NextProbeCost(c, th, ReadKey); }
  }

  /** The thread cannot get on by itself: the cell is locked, the submap has pending inserts, or another thread makes
      the next submap. */
  predicate Waits(c: Config, s: State, th: Thread) {
    th.op == Insert &&
      ((th.phase == WaitUnlocked && CellAt(s, th.sub, Position(c, th)).LockedCell?) ||
       (th.phase == SpinPending && Sub(s, th.sub).pending != 0) ||
       (th.phase == WaitMap && th.limit >= s.numMaps))
  }

  /** What a step of an insert gives: one step less is due, but a thread that finds pending inserts looks again, and one
      that waits may do nothing. */
  ghost predicate Pays(c: Config, s: State, th: Thread, th': Thread) {
    && th'.op == Insert && MoreMaps(s, th')
    && if th' == th then Waits(c, s, th)
       else Due(c, s, th') < Due(c, s, th) + if th.phase == SpinPending && Sub(s, th.sub).pending != 0 then 2 else 0
  }

  /** Steps that stay at their cell. */
  lemma {:induction false} HerePays(c: Config, s: State, t: nat, choice: Choice)
    requires Known(c, s, t) && s.threads[t].op == Insert && Probing(s.threads[t].phase)
    requires s.threads[t].phase != CompareKey && s.threads[t].phase != RereadKey && s.threads[t].phase != WriteValue
    ensures Pays(c, s, s.threads[t], Action(c, s, t, s.threads[t], choice).0)
  {
    hide Grower, InsertFacts, RestOf, FromHere, CellAt, Position, NextMap, NextProbe, Sub, RoundsLeft;
    var th := s.threads[t];
    OtherPhase(c, th, Action(c, s, t, th, choice).0.phase);
    SameView(c, th, Action(c, s, t, th, choice).0.phase);
  }

  lemma {:induction false} SameView(c: Config, th: Thread, phase: Phase)
    ensures Position(c, th.(phase := phase)) == Position(c, th)
  {
  }

  lemma {:induction false} CellCost(c: Config, th: Thread, phase: Phase)
    requires th.op == Insert && Probing(th.phase) && Probing(phase)
    ensures Cost(c, th.(phase := phase)) == Cost(c, th) - AtCell(th.phase) + AtCell(phase) &&
            Cost(c, th) >= AtCell(th.phase)
  {
    hide RestOf, RoundsLeft, AtCell;
  }

  /** Comparing the key. */
  lemma {:induction false} ComparePays(c: Config, s: State, t: nat, choice: Choice)
    requires Known(c, s, t) && s.threads[t].op == Insert && s.threads[t].phase == CompareKey
    ensures Pays(c, s, s.threads[t], Action(c, s, t, s.threads[t], choice).0)
  {
    hide ThreadShape, Shape, Grower, InsertFacts, CellAt, Position, NextMap, NextProbe, Sub, Cost, Waits;
    var th := s.threads[t];
    InsertNext(c, s, t);
    CellCost(c, th, ReadKey);
    Calm(c, s, th.(phase := ReadKey));
    Ended(c, s, th, AlreadyThere);
  }

  lemma {:induction false} Ended(c: Config, s: State, th: Thread, outcome: Outcome)
    ensures Due(c, s, Finish(th, outcome)) == 0
  {
    hide CellAt, Position, FromHere;
  }

  /** Reading the key again. */
  lemma {:induction false} RereadPays(c: Config, s: State, t: nat, choice: Choice)
    requires Known(c, s, t) && s.threads[t].op == Insert && s.threads[t].phase == RereadKey
    ensures Pays(c, s, s.threads[t], Action(c, s, t, s.threads[t], choice).0)
  {
    hide ThreadShape, Shape, Grower, InsertFacts, CellAt, Position, NextMap, NextProbe, Sub, Cost, Waits;
    var th := s.threads[t];
    NextMapCost(c, s, t);
    CellCost(c, th, WaitUnlocked);
    SameView(c, th, WaitUnlocked);
  }

  /** Writing the value. */
  lemma {:induction false} WritePays(c: Config, s: State, t: nat, choice: Choice)
    requires Known(c, s, t) && s.threads[t].op == Insert && s.threads[t].phase == WriteValue
    ensures Pays(c, s, s.threads[t], Action(c, s, t, s.threads[t], choice).0)
  {
    hide ThreadShape, Shape, Grower, InsertFacts, RestOf, FromHere, CellAt, Position, Sub, RoundsLeft;
    AtLeastHere(c, s.threads[t]);
  }

  /** Loading the submaps begins another round. */
  lemma {:induction false} RoundPays(c: Config, s: State, t: nat, choice: Choice)
    requires Known(c, s, t) && s.threads[t].op == Insert && s.threads[t].phase == LoadMaps && MoreMaps(s, s.threads[t])
    ensures Pays(c, s, s.threads[t], Action(c, s, t, s.threads[t], choice).0)
  {
    hide Grower, InsertFacts, RestOf, FromHere, CellAt, Position, NextMap, NextProbe, Sub, RoundsLeft;
    var th := s.threads[t];
    var th' := th.(limit := s.numMaps, sub := 0, probe := 0, phase := ReadKey);
    StartOfMap(c, th');
    FewerRounds(c, s.numMaps, th.limit);
  }

  lemma {:induction false} FewerRounds(c: Config, few: nat, more: nat)
    requires more < few <= c.numSubMaps
    ensures RoundsLeft(c, few) + RestOf(c, 0) <= RoundsLeft(c, more)
  {
    hide RestOf;
    TimesOrder(c.numSubMaps - few + 1, c.numSubMaps - more, RestOf(c, 0));
  }

  lemma {:induction false} TimesOrder(a: nat, b: nat, x: nat)
    requires a <= b
    ensures a * x <= b * x
  {
  }

  /** Making or waiting for a submap. */
  lemma {:induction false} GrowPays(c: Config, s: State, t: nat, choice: Choice)
    requires Known(c, s, t) && s.threads[t].op == Insert && Growing(s.threads[t].phase)
    ensures Pays(c, s, s.threads[t], Action(c, s, t, s.threads[t], choice).0)
  {
    hide InsertFacts, RestOf, FromHere, CellAt, Position, Sub, RoundsLeft, NewSubMap, NewMap;
    EnterMap(c, s.threads[t]);
  }

  lemma {:induction false} EnterMap(c: Config, th: Thread)
    requires c.Ok() && th.limit < c.numSubMaps
    ensures FromHere(c, th.(sub := th.limit, probe := 0, phase := ReadKey)) == NewMap(c, th.limit)
  {
    hide RestOf;
  }

  /** Counting the new entry, or giving up. */
  lemma {:induction false} EndPays(c: Config, s: State, t: nat, choice: Choice)
    requires Known(c, s, t) && s.threads[t].op == Insert && Counting(s.threads[t].phase)
    ensures Pays(c, s, s.threads[t], Action(c, s, t, s.threads[t], choice).0)
  {
    hide Grower, InsertFacts, RestOf, FromHere, CellAt, Position, NextMap, NextProbe, Sub, RoundsLeft;
  }

  lemma {:induction false} InsertPays(c: Config, s: State, t: nat, choice: Choice)
    requires Known(c, s, t) && s.threads[t].op == Insert && s.threads[t].phase != Done && MoreMaps(s, s.threads[t])
    ensures Pays(c, s, s.threads[t], Action(c, s, t, s.threads[t], choice).0)
  {
    hide Shape, Grower, InsertFacts, Action, Pays, MoreMaps;
    if s.threads[t].phase == LoadMaps { RoundPays(c, s, t, choice); }
    else if Growing(s.threads[t].phase) { GrowPays(c, s, t, choice); }
    else if Counting(s.threads[t].phase) { EndPays(c, s, t, choice); }
    else if s.threads[t].phase == CompareKey { ComparePays(c, s, t, choice); }
    else if s.threads[t].phase == RereadKey { RereadPays(c, s, t, choice); }
    else if s.threads[t].phase == WriteValue { WritePays(c, s, t, choice); }
    else { HerePays(c, s, t, choice); }
  }

  // ---- Runs ----

  /** Thread t is in an operation that began in state b. */
  ghost predicate Running(run: seq<State>, b: nat, n: nat, t: nat) {
    && b < n <= |run| && t < |run[b].threads| && run[b].threads[t].phase == Done
    && forall r: nat :: b < r < n ==> t < |run[r].threads| && run[r].threads[t].phase != Done
  }

  function Penalty(th: Thread): nat {
    if th.op == Insert then AGAIN else 0
  }

  function SpinCost(th: Thread): nat {
    if th.op == Insert then 2 else 0
  }

  /** A thread is not disturbed by what it does itself. */
  lemma {:induction false} OwnEffect(c: Config, s: State, s': State, t: nat, choice: Choice)
    requires Known(c, s, t) && Moved(c, s, s', t, choice) && s.threads[t].phase != Done
    ensures var th' := Action(c, s, t, s.threads[t], choice).0; Due(c, s', th') <= Due(c, s, th')
  {
    hide Known, Position, Sub, Cost, NextMap, NextProbe, SearchNext, Step, CellAt, Allowed;
  }

  /** Another thread disturbs it only at its cell. */
  lemma {:induction false} OthersEffect(c: Config, s: State, s': State, th: Thread)
    ensures Due(c, s', th) <= Due(c, s, th) +
              if CellAt(s, th.sub, Position(c, th)) != CellAt(s', th.sub, Position(c, th)) then Penalty(th) else 0
  {
    hide Position, Sub, Cost, CellAt;
  }

  /** One step of the run, by whomever. */
  ghost predicate StepPaid(c: Config, run: seq<State>, n: nat, t: nat)
    requires n + 1 < |run| && t < |run[n].threads| && t < |run[n + 1].threads|
  {
    var th, th' := run[n].threads[t], run[n + 1].threads[t];
    && th'.op == th.op && MoreMaps(run[n + 1], th')
    && (if MovesAt(run, n, t) then 1 else 0) + Due(c, run[n + 1], th')
         <= Due(c, run[n], th) + (if Intrusion(c, run, n, t) then Penalty(th) else 0) +
            if SpinsAt(run, n, t) then SpinCost(th) else 0
  }

  lemma {:induction false} OwnStepPaid(c: Config, run: seq<State>, n: nat, t: nat, choice: Choice)
    requires n + 1 < |run| && t < |run[n].threads| && Known(c, run[n], t) && run[n].threads[t].phase != Done
    requires Moved(c, run[n], run[n + 1], t, choice) && MoreMaps(run[n], run[n].threads[t])
    ensures t < |run[n + 1].threads| && StepPaid(c, run, n, t)
  {
    hide Known, Moved, Due, Action, Sub, Position, CellAt;
    var th := run[n].threads[t];
    StepThreads(c, run[n], run[n + 1], t, choice);
    OwnEffect(c, run[n], run[n + 1], t, choice);
    NumMapsGrow(c, run[n], run[n + 1], t, choice);
    if th.op == Insert {
      InsertPays(c, run[n], t, choice);
    } else {
      SearchPays(c, run[n], t, choice);
      NeverDisturbed(c, run[n], th);
      NeverDisturbed(c, run[n], Action(c, run[n], t, th, choice).0);
    }
  }

  lemma {:induction false} NeverDisturbed(c: Config, s: State, th: Thread)
    requires th.op != Insert
    ensures Due(c, s, th) == Cost(c, th)
  {
    hide Cost;
  }

  lemma {:induction false} OthersStepPaid(c: Config, run: seq<State>, n: nat, t: nat, u: nat, choice: Choice)
    requires n + 1 < |run| && t < |run[n].threads| && u != t && Moved(c, run[n], run[n + 1], u, choice)
    requires MoreMaps(run[n], run[n].threads[t])
    ensures t < |run[n + 1].threads| && StepPaid(c, run, n, t)
  {
    hide Moved, Due, Action, Sub, Position, CellAt;
    StepThreads(c, run[n], run[n + 1], u, choice);
    NumMapsGrow(c, run[n], run[n + 1], u, choice);
    OthersEffect(c, run[n], run[n + 1], run[n].threads[t]);
  }

  /** What has been done and what is due is no more than what was due, and some more for each intrusion and each look at
      pending inserts; find and erase do not care for either. */
  lemma {:induction false} MovesArePaid(c: Config, run: seq<State>, b: nat, n: nat, t: nat)
    requires c.Ok() && Reachable(c, run) && Running(run, b, n, t) && b + 1 < |run| && n < |run|
    requires t < |run[b + 1].threads| && run[b + 1].threads[t].phase != Done
    ensures t < |run[n].threads|
    ensures var th, th' := run[b + 1].threads[t], run[n].threads[t];
            && th'.op == th.op && MoreMaps(run[n], th')
            && Moves(run, b + 1, n, t) + Due(c, run[n], th')
                 <= Due(c, run[b + 1], th) + Penalty(th) * Intrusions(c, run, b + 1, n, t) +
                    SpinCost(th) * Spins(run, b + 1, n, t)
    decreases n
  {
    hide Inv, Step, Known, Moved, Action, Due, MovesAt, Intrusion, SpinsAt, MoreMaps;
    if n == b + 1 {
      FirstMaps(c, run, b, t);
    } else {
      MovesArePaid(c, run, b, n - 1, t);
      assert Next(c, run[n - 1], run[n]);
      var u: nat, choice :| u < |run[n - 1].threads| && run[n] == Step(c, run[n - 1], u, choice);
      RunKeepsInv(c, run, n - 1);
      StepMoves(c, run[n - 1], u, choice);
      if u == t {
        InvKnown(c, run[n - 1], t);
        OwnStepPaid(c, run, n - 1, t, choice);
      } else {
        OthersStepPaid(c, run, n - 1, t, u, choice);
      }
      var th := run[n - 1].threads[t];
      OneMore(Penalty(th), Intrusions(c, run, b + 1, n - 1, t));
      OneMore(SpinCost(th), Spins(run, b + 1, n - 1, t));
    }
  }

  lemma {:induction false} OneMore(cost: nat, times: nat)
    ensures cost * (times + 1) == cost * times + cost
  {
  }

  /** The operation that has just begun. */
  lemma {:induction false} Begun(c: Config, run: seq<State>, b: nat, t: nat) returns (choice: Choice)
    requires c.Ok() && Reachable(c, run) && b + 1 < |run| && t < |run[b].threads| && run[b].threads[t].phase == Done
    requires t < |run[b + 1].threads| && run[b + 1].threads[t].phase != Done
    ensures run[b + 1].threads[t] == Begin(run[b], choice) && run[b + 1] == Step(c, run[b], t, choice)
  {
    hide Inv, Step, InsertAction, SearchAction;
    assert Next(c, run[b], run[b + 1]);
    var u: nat, ch :| u < |run[b].threads| && run[b + 1] == Step(c, run[b], u, ch);
    SameThreads(c, run[b], u, ch);
    return ch;
  }

  lemma {:induction false} FirstMaps(c: Config, run: seq<State>, b: nat, t: nat)
    requires c.Ok() && Reachable(c, run) && b + 1 < |run| && t < |run[b].threads| && run[b].threads[t].phase == Done
    requires t < |run[b + 1].threads| && run[b + 1].threads[t].phase != Done
    ensures MoreMaps(run[b + 1], run[b + 1].threads[t])
  {
    hide Step, ThreadShape, Grower, InsertFacts, LockOwned, LiveRooted, SearchFacts, Sub, Frozen, Reachable;
    var choice := Begun(c, run, b, t);
    RunKeepsInv(c, run, b + 1);
  }

  lemma {:induction false} MovesFromStart(run: seq<State>, b: nat, n: nat, t: nat)
    requires b < n
    ensures Moves(run, b, n, t) <= Moves(run, b + 1, n, t) + 1
    decreases n
  {
    if n > b + 1 { MovesFromStart(run, b, n - 1, t); }
  }

  lemma {:induction false} FirstCost(c: Config, s: State, s': State, choice: Choice)
    requires c.Ok()
    ensures var th := Begin(s, choice);
            Due(c, s', th) == if choice.op == Insert then RoundsLeft(c, 0) + 1
                              else if choice.op == Find then RestOf(c, 0) - 14 else RestOf(c, 0)
  {
    hide RestOf, RoundsLeft, FromHere;
    StartOfMap(c, Begin(s, choice));
  }

  /** No step of an operation goes uncounted, unless the thread waits. */
  lemma {:induction false} EveryStepCounts(c: Config, run: seq<State>, b: nat, n: nat, t: nat, choice: Choice)
    requires c.Ok() && Reachable(c, run) && Running(run, b, n + 1, t) && b < n && n + 1 < |run|
    requires run[n + 1] == Step(c, run[n], t, choice)
    ensures MovesAt(run, n, t) || Waits(c, run[n], run[n].threads[t])
  {
    hide Inv, Step, Known, Moved, Action, Due, MoreMaps, Reachable, Waits;
    RunKeepsInv(c, run, n);
    InvKnown(c, run[n], t);
    StepMoves(c, run[n], t, choice);
    StepThreads(c, run[n], run[n + 1], t, choice);
    MovesArePaid(c, run, b, n, t);
    var th := run[n].threads[t];
    if th.op == Insert { InsertPays(c, run[n], t, choice); } else { SearchPays(c, run[n], t, choice); }
  }

  /** A find or an erase takes a number of steps bounded by the size of the map, whatever other threads do. */
  lemma {:induction false} SearchIsWaitFree(c: Config, run: seq<State>, b: nat, n: nat, t: nat)
    requires c.Ok() && Reachable(c, run) && Running(run, b, n, t) && b + 1 < n < |run| &&
             run[b + 1].threads[t].op != Insert
    ensures Moves(run, b, n, t) <= RestOf(c, 0) + 1
  {
    hide Reachable, Step, Due, RestOf;
    MovesArePaid(c, run, b, n, t);
    MovesFromStart(run, b, n, t);
    var choice := Begun(c, run, b, t);
    FirstCost(c, run[b], run[b + 1], choice);
  }

  /** An insert takes a number of steps bounded by the size and number of the submaps, and at most eleven more for each
      time that another thread changes the cell it looks at and two more for each look at pending inserts. */
  lemma {:induction false} InsertIsBounded(c: Config, run: seq<State>, b: nat, n: nat, t: nat)
    requires c.Ok() && Reachable(c, run) && Running(run, b, n, t) && b + 1 < n < |run| &&
             run[b + 1].threads[t].op == Insert
    ensures Moves(run, b, n, t)
         <= c.numSubMaps * RestOf(c, 0) + 2 + AGAIN * Intrusions(c, run, b + 1, n, t) + 2 * Spins(run, b + 1, n, t)
  {
    hide Reachable, Step, Due, RestOf;
    MovesArePaid(c, run, b, n, t);
    MovesFromStart(run, b, n, t);
    var choice := Begun(c, run, b, t);
    FirstCost(c, run[b], run[b + 1], choice);
  }

  // ---- Waiting ----

  /** Whatever the environment decides, the next step of the thread gets it on. */
  ghost predicate GetsOn(c: Config, s: State, u: nat) {
    u < |s.threads| && s.threads[u].phase != Done && !Waits(c, s, s.threads[u]) &&
      forall choice :: Action(c, s, u, s.threads[u], choice).0 != s.threads[u]
  }

  predicate Busy(th: Thread) {
    th.op == Insert && (InPending(th, th.sub) || IsGrower(th))
  }

  lemma {:induction false} BusyGetsOn(c: Config, s: State, u: nat)
    requires u < |s.threads| && Busy(s.threads[u])
    ensures GetsOn(c, s, u)
  {
    hide CellAt, Sub, Position;
  }

  lemma {:induction false} SomebodyPending(threads: seq<Thread>, i: nat) returns (u: nat)
    requires Count(threads, i) > 0
    ensures u < |threads| && InPending(threads[u], i)
    decreases |threads|
  {
    u := |threads| - 1;
    if !InPending(threads[u], i) { u := SomebodyPending(threads[..u], i); }
  }

  /** A submap is being made only while somebody is making it, and whoever waits for one has found its place taken. */
  ghost predicate Grows(s: State) {
    && (s.numMaps < |s.slots| && s.slots[s.numMaps] != NullPtr ==>
          exists u: nat :: u < |s.threads| && IsGrower(s.threads[u]))
    && forall t: nat :: t < |s.threads| ==> Awaits(s, s.threads[t])
  }

  predicate Awaits(s: State, th: Thread) {
    th.op == Insert && th.phase == WaitMap ==> th.limit < |s.slots| && s.slots[th.limit] != NullPtr
  }

  /** Which steps of inserts have to do with the places of the submaps. */
  ghost predicate PlaceEffect(s: State, th: Thread, th': Thread, e: Effect) {
    && (e.SetSlot? ==> e.i == s.numMaps && e.slot != NullPtr && IsGrower(th'))
    && (e.AddMap? ==> IsGrower(th))
    && (IsGrower(th) ==> IsGrower(th') || e.AddMap?)
    && (th'.op == Insert && th'.phase == WaitMap ==> Awaits(s, th'))
  }

  lemma {:induction false} GrowingPlaces(c: Config, s: State, t: nat, choice: Choice)
    requires Known(c, s, t) && s.threads[t].op == Insert && Growing(s.threads[t].phase) && Awaits(s, s.threads[t])
    ensures var (th', e) := Action(c, s, t, s.threads[t], choice); PlaceEffect(s, s.threads[t], th', e)
  {
    hide CellAt, Sub, Position, InsertFacts, NewSubMap;
  }

  lemma {:induction false} OtherPlaces(c: Config, s: State, t: nat, choice: Choice)
    requires Known(c, s, t) && !(s.threads[t].op == Insert && Growing(s.threads[t].phase))
    ensures var (th', e) := Action(c, s, t, s.threads[t], choice); PlaceEffect(s, s.threads[t], th', e)
  {
    hide CellAt, Sub, Position, InsertFacts, Grower, Shape;
  }

  /** What an effect does to them. */
  lemma {:induction false} PlacesAfter(c: Config, s: State, e: Effect)
    requires Shape(c, s) && (e.SetSlot? ==> e.i == s.numMaps && e.slot != NullPtr)
    ensures var s' := Apply(s, e);
            && |s'.slots| == |s.slots| && s'.numMaps == s.numMaps + (if e.AddMap? then 1 else 0)
            && (forall i: nat :: i < |s.slots| && s.slots[i] != NullPtr ==> s'.slots[i] != NullPtr)
            && (e.AddMap? && s'.numMaps < |s.slots| ==> s'.slots[s'.numMaps] == NullPtr)
            && (!e.AddMap? && !e.SetSlot? && s.numMaps < |s.slots| && s.slots[s.numMaps] == NullPtr ==>
                  s'.slots[s.numMaps] == NullPtr)
  {
  }

  lemma {:induction false} StepGrows(c: Config, s: State, t: nat, choice: Choice)
    requires Inv(c, s) && t < |s.threads| && Grows(s)
    ensures Grows(Step(c, s, t, choice))
  {
    hide Inv, Action, Awaits, Apply, ThreadShape, Grower, InsertFacts, IsGrower, Shape;
    InvKnown(c, s, t);
    var (th', e) := Action(c, s, t, s.threads[t], choice);
    if s.threads[t].op == Insert && Growing(s.threads[t].phase) { GrowingPlaces(c, s, t, choice); }
    else { OtherPlaces(c, s, t, choice); }
    PlacesAfter(c, s, e);
    SameThreads(c, s, t, choice);
    var s' := Step(c, s, t, choice);
    forall u: nat | u < |s'.threads|
      ensures Awaits(s', s'.threads[u])
    {
      NotAwaiting(s, th');
      StillAwaits(s, s', s'.threads[u]);
    }
    if s'.numMaps < |s'.slots| && s'.slots[s'.numMaps] != NullPtr && !IsGrower(s'.threads[t]) {
      var u: nat :| u < |s.threads| && IsGrower(s.threads[u]);
      assert IsGrower(s'.threads[u]);
    }
  }

  lemma {:induction false} NotAwaiting(s: State, th: Thread)
    requires th.op == Insert && th.phase == WaitMap ==> Awaits(s, th)
    ensures Awaits(s, th)
  {
  }

  lemma {:induction false} StillAwaits(s: State, s': State, th: Thread)
    requires Awaits(s, th) && |s'.slots| == |s.slots|
    requires forall i: nat :: i < |s.slots| && s.slots[i] != NullPtr ==> s'.slots[i] != NullPtr
    ensures Awaits(s', th)
  {
  }

  lemma {:induction false} RunGrows(c: Config, run: seq<State>, n: nat)
    requires c.Ok() && Reachable(c, run) && n < |run|
    ensures Grows(run[n])
  {
    hide Inv, Step;
    if n > 0 {
      RunGrows(c, run, n - 1);
      RunKeepsInv(c, run, n - 1);
      assert Next(c, run[n - 1], run[n]);
      var t: nat, choice :| t < |run[n - 1].threads| && run[n] == Step(c, run[n - 1], t, choice);
      StepGrows(c, run[n - 1], t, choice);
    }
  }

  /** In every reachable state a thread that waits is waiting for another one, which does not wait: its next step gets
      it on. */
  lemma {:induction false} WaitsForAnother(c: Config, run: seq<State>, n: nat, t: nat)
    requires c.Ok() && Reachable(c, run) && n < |run| && t < |run[n].threads| && Waits(c, run[n], run[n].threads[t])
    ensures exists u: nat :: u != t && GetsOn(c, run[n], u)
  {
    hide Reachable, InsertFacts, LiveRooted, SearchFacts, Frozen, CellAt, Sub, Position, GetsOn;
    var s, th := run[n], run[n].threads[t];
    RunKeepsInv(c, run, n);
    RunGrows(c, run, n);
    var u: nat;
    if th.phase == WaitUnlocked {
      assert LockOwned(c, s, th.sub, Position(c, th));
      u := CellAt(s, th.sub, Position(c, th)).owner;
    } else if th.phase == SpinPending {
      u := SomebodyPending(s.threads, th.sub);
    } else {
      assert ThreadShape(c, s, th) && Awaits(s, th);
      u :| u < |s.threads| && IsGrower(s.threads[u]);
    }
    BusyGetsOn(c, s, u);
  }
}
