/** The insert-only chained hash map as a state machine: any number of threads, one atomic access per step. */
module AtomicUnorderedMap {

  datatype BucketState = Empty | Constructing | Linked

  /** A slot: the head of the chain of the keys that map to it, its own state (the two share one word),
      and the next slot and key of the chain it is in. */
  datatype Slot = Slot(head: nat, state: BucketState, next: nat, key: nat)

  const MAX_ALLOCATION_TRIES := 1000

  /** Which slot a key maps to. */
  datatype Config = Config(numSlots: nat, slotOf: nat -> nat) {
    ghost predicate Ok() {
      numSlots > 0 && forall k :: slotOf(k) < numSlots
    }
  }

  datatype Phase =
    | LoadPrev | FindHead | FindKey | FindNext | AllocLoad | AllocCas | WriteKey | CallFunc | FreeThrown
    | WriteNext | LinkCas | MarkLinked | FreeLost | Done

  /** Why a thread is searching: a plain find, the one before constructing, or the one after a lost race. */
  datatype Purpose = PlainFind | FirstFind | RetryFind

  datatype Outcome = Nothing | Index(i: nat) | Thrown

  /** A thread with the word `prevHead`/`prevState` it expects, the slot it has allocated and its search cursor.
      The last four record lengths of the chain: when the operation began, when the expected word was loaded, when the
      search began, and how much of the chain is still ahead of the cursor. */
  datatype Thread = Thread(key: nat, phase: Phase, purpose: Purpose, prevHead: nat, prevState: BucketState,
                           idx: nat, cursor: nat, tries: nat, outcome: Outcome,
                           known: nat, seen: nat, top: nat, pos: nat)

  /** `linked` records, for each slot, the slots of its chain in the order in which they were linked. */
  datatype State = State(slots: seq<Slot>, linked: seq<seq<nat>>, threads: seq<Thread>)

  datatype Effect =
    | NoEffect
    | SetState(i: nat, state: BucketState)
    | SetKey(i: nat, key: nat)
    | SetNext(i: nat, next: nat)
    | Link(b: nat, i: nat)

  /** What the environment decides: the next operation, the random slot to try, whether a constructor throws. */
  datatype Choice = Choice(find: bool, key: nat, slot: nat, throws: bool)

  function SlotAt(s: State, i: nat): Slot {
    if i < |s.slots| then s.slots[i] else Slot(0, Constructing, 0, 0)
  }

  function ChainOf(s: State, b: nat): seq<nat> {
    if b < |s.linked| then s.linked[b] else []
  }

  function AllocationAttempt(c: Config, start: nat, tries: nat, random: nat): nat {
    if tries < 8 && start + tries < c.numSlots then start + tries
        else random % (if c.numSlots > 0 then c.numSlots else 1)
  }

  function Finish(th: Thread, outcome: Outcome): Thread {
    th.(phase := Done, outcome := outcome)
  }

  function Begin(c: Config, s: State, choice: Choice): Thread {
    Thread(choice.key, if choice.find then FindHead else LoadPrev, if choice.find then PlainFind else FirstFind,
           0, Empty, 0, 0, 0, Nothing, |ChainOf(s, c.slotOf(choice.key))|, 0, 0, 0)
  }

  /** The search has ended: at slot i, or nowhere if i is 0. */
  function Ended(th: Thread, i: nat): Thread {
    match th.purpose
    case PlainFind => Finish(th, Index(i))
    case FirstFind => if i != 0 then Finish(th, Index(i)) else th.(phase := AllocLoad, tries := 0)
    case RetryFind => if i != 0 then th.(phase := FreeLost, cursor := i) else th.(phase := WriteNext)
  }

  function Action(c: Config, s: State, th: Thread, choice: Choice): (Thread, Effect) {
    var b := c.slotOf(th.key);
    match th.phase
    case Done => (Begin(c, s, choice), NoEffect)
    case LoadPrev =>
      (th.(prevHead := SlotAt(s, b).head, prevState := SlotAt(s, b).state, seen := |ChainOf(s, b)|, phase := FindHead),
       NoEffect)
    case FindHead =>
      (th.(cursor := SlotAt(s, b).head, top := |ChainOf(s, b)|, pos := |ChainOf(s, b)|, phase := FindKey), NoEffect)
    case FindKey =>
      (if th.cursor == 0 then Ended(th, 0)
       else if SlotAt(s, th.cursor).key == th.key then Ended(th, th.cursor)
       else th.(phase := FindNext), NoEffect)
    case FindNext => (th.(cursor := SlotAt(s, th.cursor).next, pos := if th.pos > 0 then th.pos - 1 else 0,
                          phase := FindKey), NoEffect)
    case AllocLoad =>
      if th.tries >= MAX_ALLOCATION_TRIES then (Finish(th, Thrown), NoEffect)
      else
        var i := AllocationAttempt(c, b, th.tries, choice.slot);
        (if SlotAt(s, i).state == Empty then th.(idx := i, cursor := SlotAt(s, i).head, phase := AllocCas)
         else th.(tries := th.tries + 1), NoEffect)
    case AllocCas =>
      if SlotAt(s, th.idx).head == th.cursor && SlotAt(s, th.idx).state == Empty
      then (th.(phase := WriteKey), SetState(th.idx, Constructing))
      else (th.(tries := th.tries + 1, phase := AllocLoad), NoEffect)
    case WriteKey => if choice.throws then (th.(phase := FreeThrown), NoEffect)
        else (th.(phase := CallFunc), SetKey(th.idx, th.key))
    case CallFunc => (th.(phase := if choice.throws then FreeThrown else WriteNext), NoEffect)
    case FreeThrown => (Finish(th, Thrown), SetState(th.idx, Empty))
    case WriteNext => (th.(phase := LinkCas), SetNext(th.idx, th.prevHead))
    case LinkCas =>
      if SlotAt(s, b).head == th.prevHead && SlotAt(s, b).state == th.prevState
      then (if b == th.idx then Finish(th, Index(th.idx)) else th.(phase := MarkLinked), Link(b, th.idx))
      else (th.(prevHead := SlotAt(s, b).head, prevState := SlotAt(s, b).state, seen := |ChainOf(s, b)|,
                purpose := RetryFind, phase := FindHead), NoEffect)
    case MarkLinked => (Finish(th, Index(th.idx)), SetState(th.idx, Linked))
    case FreeLost => (Finish(th, Index(th.cursor)), SetState(th.idx, Empty))
  }

  function SetSlot(s: State, i: nat, slot: Slot): State {
    if i < |s.slots| then s.(slots := s.slots[i := slot]) else s
  }

  /** Linking stores the new head, and in the same word the state if the slot links itself. */
  function Apply(s: State, e: Effect): State {
    match e
    case NoEffect => s
    case SetState(i, state) => SetSlot(s, i, SlotAt(s, i).(state := state))
    case SetKey(i, key) => SetSlot(s, i, SlotAt(s, i).(key := key))
    case SetNext(i, next) => SetSlot(s, i, SlotAt(s, i).(next := next))
    case Link(b, i) =>
      var s1 := SetSlot(s, b, SlotAt(s, b).(head := i, state := if b == i then Linked else SlotAt(s, b).state));
      if b < |s.linked| then s1.(linked := s.linked[b := s.linked[b] + [i]]) else s1
  }

  function Step(c: Config, s: State, t: nat, choice: Choice): State
    requires t < |s.threads|
  {
    var (th, e) := Action(c, s, s.threads[t], choice);
    Apply(s, e).(threads := s.threads[t := th])
  }

  ghost predicate Next(c: Config, s: State, s': State) {
    exists t: nat, choice :: t < |s.threads| && s' == Step(c, s, t, choice)
  }

  /** All slots empty but slot 0, which is reserved as the nil index. */
  ghost predicate Init(c: Config, s: State) {
    && |s.slots| == c.numSlots && |s.linked| == c.numSlots
    && (forall i :: 0 <= i < |s.slots| ==> s.slots[i] == Slot(0, if i == 0 then Constructing else Empty, 0, 0))
    && (forall i :: 0 <= i < |s.linked| ==> s.linked[i] == [])
    && forall t :: 0 <= t < |s.threads| ==>
        s.threads[t] == Thread(0, Done, PlainFind, 0, Empty, 0, 0, 0, Nothing, 0, 0, 0, 0)
  }

  ghost predicate Reachable(c: Config, run: seq<State>) {
    |run| > 0 && Init(c, run[0]) && forall n :: 0 <= n < |run| - 1 ==> Next(c, run[n], run[n + 1])
  }
}
