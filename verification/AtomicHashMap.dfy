/** The growing lock-free hash map as a state machine: any number of threads, one atomic access per step. */
module AtomicHashMap {

  /** The key word of a cell. A locked cell remembers who locked it and a live one when it became live;
      no step of a thread looks at either. */
  datatype Cell = EmptyCell | LockedCell(owner: nat) | ErasedCell | LiveCell(key: nat, born: nat)

  datatype SubMap = SubMap(cells: seq<Cell>, isFull: nat, pending: int)

  datatype Slot = NullPtr | LockedPtr | Allocated(m: SubMap)

  const NO_NEW_INSERTS := 1
  const NO_PENDING_INSERTS := 2

  /** The probe sequence of a key in a submap, the capacities, and how many submaps there may be. */
  datatype Config = Config(probe: (nat, nat) -> seq<nat>, capacity: nat -> nat, numSubMaps: nat, canGrow: bool) {
    ghost predicate Ok() {
      && numSubMaps > 0
      && (forall i :: capacity(i) > 0)
      && forall i, k :: |probe(i, k)| == capacity(i) && forall n :: 0 <= n < |probe(i, k)| ==>
          probe(i, k)[n] < capacity(i)
    }
  }

  datatype Op = Insert | Find | Erase

  /** The point a thread has reached; each names the access it is about to make. */
  datatype Phase =
    | LoadMaps | ReadKey | IncPending | CheckFull | DecPendingFull | SpinFull | SpinPending | StoreFull | RereadKey
    | TryLock | DecPendingLost | WriteValue | DecPendingThrown | DecPendingDone | CountEntry | StoreNoNewInserts
    | WaitUnlocked | CompareKey | TryLockMap | AllocateMap | PublishMap | WaitMap
    | FindKey | FindLoadMaps | EraseKey | EraseCas
    | Done

  datatype Outcome = Nothing | Inserted | AlreadyThere | MapFull | Thrown | Found | Removed | NotFound

  /** A thread in submap `sub` at probe number `probe`; `limit` is the number of submaps it has loaded.
      `began` and `startMaps` record when its operation began and how many submaps there were. */
  datatype Thread = Thread(op: Op, key: nat, sub: nat, probe: nat, limit: nat, phase: Phase, outcome: Outcome,
                           began: nat, startMaps: nat)

  datatype State = State(slots: seq<Slot>, numMaps: nat, threads: seq<Thread>, clock: nat)

  /** What a step does to the shared memory. */
  datatype Effect =
    | NoEffect
    | SetCell(i: nat, p: nat, cell: Cell)
    | SetFull(i: nat, value: nat)
    | AddPending(i: nat, delta: int)
    | SetSlot(i: nat, slot: Slot)
    | AddMap

  /** What the environment decides: the next operation, whether a constructor throws, whether the load limit is seen. */
  datatype Choice = Choice(op: Op, key: nat, flag: bool)

  function Sub(s: State, i: nat): SubMap {
    if i < |s.slots| && s.slots[i].Allocated? then s.slots[i].m else SubMap([], 0, 0)
  }

  function CellAt(s: State, i: nat, p: nat): Cell {
    if p < |Sub(s, i).cells| then Sub(s, i).cells[p] else EmptyCell
  }

  function PathAt(c: Config, i: nat, k: nat, n: nat): nat {
    if n < |c.probe(i, k)| then c.probe(i, k)[n] else 0
  }

  /** The cell the thread is looking at. */
  function Position(c: Config, th: Thread): nat {
    PathAt(c, th.sub, th.key, th.probe)
  }

  function NewSubMap(c: Config, i: nat): SubMap {
    SubMap(seq(c.capacity(i), _ => EmptyCell), 0, 0)
  }

  /** The submap is full for this key: the next one, a new one, or everything from the start. */
  function NextMap(c: Config, th: Thread): Thread {
    if th.sub + 1 < th.limit then th.(sub := th.sub + 1, probe := 0, phase := ReadKey)
    else if th.sub + 1 > th.limit then th.(phase := LoadMaps)
    else if th.limit >= c.numSubMaps || !c.canGrow then th.(phase := Done, outcome := MapFull)
    else th.(phase := TryLockMap)
  }

  function Finish(th: Thread, outcome: Outcome): Thread {
    th.(phase := Done, outcome := outcome)
  }

  /** Not at this probe: the next one, if there is one. */
  function NextProbe(c: Config, th: Thread, again: Phase, atEnd: Thread): Thread {
    if th.probe + 1 >= c.capacity(th.sub) then atEnd else th.(probe := th.probe + 1, phase := again)
  }

  /** Nothing in this submap: the next one for find or erase. */
  function SearchNext(th: Thread): Thread {
    if th.op == Find && th.sub == 0 && th.limit == 0 then th.(phase := FindLoadMaps)
    else if th.sub + 1 < th.limit then th.(sub := th.sub + 1, probe := 0,
                                           phase := if th.op == Find then FindKey else EraseKey)
    else Finish(th, NotFound)
  }

  function InsertAction(c: Config, s: State, t: nat, th: Thread, choice: Choice): (Thread, Effect) {
    var i, p := th.sub, Position(c, th);
    var cell := CellAt(s, i, p);
    match th.phase
    case LoadMaps => (th.(limit := s.numMaps, sub := 0, probe := 0, phase := ReadKey), NoEffect)
    case ReadKey => (th.(phase := if cell == EmptyCell then IncPending else WaitUnlocked), NoEffect)
    case IncPending => (th.(phase := CheckFull), AddPending(i, 1))
    case CheckFull => (th.(phase := if Sub(s, i).isFull != 0 then DecPendingFull else TryLock), NoEffect)
    case DecPendingFull => (th.(phase := SpinFull), AddPending(i, -1))
    case SpinFull => (th.(phase := if Sub(s, i).isFull == NO_PENDING_INSERTS then StoreFull else SpinPending), NoEffect)
    case SpinPending => (th.(phase := if Sub(s, i).pending == 0 then StoreFull else SpinFull), NoEffect)
    case StoreFull => (th.(phase := RereadKey), SetFull(i, NO_PENDING_INSERTS))
    case RereadKey => (if cell == EmptyCell then NextMap(c, th) else th.(phase := WaitUnlocked), NoEffect)
    case TryLock =>
      if cell == EmptyCell then (th.(phase := WriteValue), SetCell(i, p, LockedCell(t)))
      else (th.(phase := DecPendingLost), NoEffect)
    case DecPendingLost => (th.(phase := WaitUnlocked), AddPending(i, -1))
    case WriteValue =>
      if choice.flag then (th.(phase := DecPendingThrown), SetCell(i, p, EmptyCell))
      else (th.(phase := DecPendingDone), SetCell(i, p, LiveCell(th.key, s.clock + 1)))
    case DecPendingThrown => (Finish(th, Thrown), AddPending(i, -1))
    case DecPendingDone => (th.(phase := CountEntry), AddPending(i, -1))
    case CountEntry => (if choice.flag then th.(phase := StoreNoNewInserts) else Finish(th, Inserted), NoEffect)
    case StoreNoNewInserts => (Finish(th, Inserted), SetFull(i, NO_NEW_INSERTS))
    case WaitUnlocked => (if cell.LockedCell? then th else th.(phase := CompareKey), NoEffect)
    case CompareKey =>
      (if cell.LiveCell? && cell.key == th.key then Finish(th, AlreadyThere)
       else if cell.EmptyCell? || cell.LockedCell? then th.(phase := ReadKey)
       else NextProbe(c, th, ReadKey, NextMap(c, th)), NoEffect)
    case TryLockMap =>
      if th.limit < |s.slots| && s.slots[th.limit] == NullPtr
          then (th.(phase := AllocateMap), SetSlot(th.limit, LockedPtr))
      else (th.(phase := WaitMap), NoEffect)
    case AllocateMap => (th.(phase := PublishMap), SetSlot(th.limit, Allocated(NewSubMap(c, th.limit))))
    case PublishMap => (th.(sub := th.limit, probe := 0, phase := ReadKey), AddMap)
    case WaitMap => (if th.limit < s.numMaps then th.(sub := th.limit, probe := 0, phase := ReadKey) else th, NoEffect)
    case _ => (th, NoEffect)
  }

  function SearchAction(c: Config, s: State, th: Thread): (Thread, Effect) {
    var i, p := th.sub, Position(c, th);
    var cell := CellAt(s, i, p);
    match th.phase
    case FindKey =>
      (if cell.LiveCell? && cell.key == th.key then Finish(th, Found)
       else if cell.EmptyCell? then SearchNext(th)
       else NextProbe(c, th, FindKey, SearchNext(th)), NoEffect)
    case FindLoadMaps =>
      (if 1 < s.numMaps then th.(limit := s.numMaps, sub := 1, probe := 0, phase := FindKey) else Finish(th, NotFound),
       NoEffect)
    case LoadMaps => (th.(limit := s.numMaps, sub := 0, probe := 0, phase := EraseKey), NoEffect)
    case EraseKey =>
      (if cell.EmptyCell? || cell.LockedCell? then SearchNext(th)
       else if cell.LiveCell? && cell.key == th.key then th.(phase := EraseCas)
       else NextProbe(c, th, EraseKey, SearchNext(th)), NoEffect)
    case EraseCas =>
      if cell.LiveCell? && cell.key == th.key then (Finish(th, Removed), SetCell(i, p, ErasedCell))
      else (SearchNext(th), NoEffect)
    case _ => (th, NoEffect)
  }

  function Begin(s: State, choice: Choice): Thread {
    Thread(choice.op, choice.key, 0, 0, 0, if choice.op == Find then FindKey else LoadMaps, Nothing, s.clock, s.numMaps)
  }

  function Action(c: Config, s: State, t: nat, th: Thread, choice: Choice): (Thread, Effect) {
    if th.phase == Done then (Begin(s, choice), NoEffect)
    else if th.op == Insert then InsertAction(c, s, t, th, choice)
    else SearchAction(c, s, th)
  }

  function SetSub(s: State, i: nat, m: SubMap): State {
    if i < |s.slots| && s.slots[i].Allocated? then s.(slots := s.slots[i := Allocated(m)]) else s
  }

  function Apply(s: State, e: Effect): State {
    match e
    case NoEffect => s
    case SetCell(i, p, cell) =>
      if p < |Sub(s, i).cells| then SetSub(s, i, Sub(s, i).(cells := Sub(s, i).cells[p := cell])) else s
    case SetFull(i, value) => SetSub(s, i, Sub(s, i).(isFull := value))
    case AddPending(i, delta) => SetSub(s, i, Sub(s, i).(pending := Sub(s, i).pending + delta))
    case SetSlot(i, slot) => if i < |s.slots| then s.(slots := s.slots[i := slot]) else s
    case AddMap => s.(numMaps := s.numMaps + 1)
  }

  function Step(c: Config, s: State, t: nat, choice: Choice): State
    requires t < |s.threads|
  {
    var (th, e) := Action(c, s, t, s.threads[t], choice);
    Apply(s, e).(threads := s.threads[t := th], clock := s.clock + 1)
  }

  ghost predicate Next(c: Config, s: State, s': State) {
    exists t: nat, choice :: t < |s.threads| && s' == Step(c, s, t, choice)
  }

  /** One submap, all cells empty, no operation under way. */
  ghost predicate Init(c: Config, s: State) {
    && |s.slots| == c.numSubMaps && s.numMaps == 1 && s.clock == 0
    && (forall i :: 0 <= i < |s.slots| ==> s.slots[i] == if i == 0 then Allocated(NewSubMap(c, 0)) else NullPtr)
    && forall t :: 0 <= t < |s.threads| ==> s.threads[t] == Thread(Insert, 0, 0, 0, 0, Done, Nothing, 0, 0)
  }

  ghost predicate Reachable(c: Config, run: seq<State>) {
    |run| > 0 && Init(c, run[0]) && forall n :: 0 <= n < |run| - 1 ==> Next(c, run[n], run[n + 1])
  }
}
