/** What the answers of the insert-only map mean: an index holds the key, nil was right when the search began, and an
    operation that gives up has been refused at every slot it tried. */
module AtomicUnorderedMapOutcomes {
  import opened AtomicUnorderedMap
  import opened AtomicUnorderedMapSafety

  ghost predicate StepOf(c: Config, run: seq<State>, m: nat, t: nat, choice: Choice) {
    m + 1 < |run| && t < |run[m].threads| && run[m + 1] == Step(c, run[m], t, choice)
  }

  /** The slot for the given try: the first eight are the key's own slot and those behind it, as far as there are any;
      the others are drawn at random. */
  predicate Candidate(c: Config, k: nat, tries: nat, random: nat, i: nat) {
    if tries < 8 && c.slotOf(k) + tries < c.numSlots then i == c.slotOf(k) + tries
    else c.numSlots > 0 && i == random % c.numSlots
  }

  /** In state m, thread t looks at slot i on this try. */
  ghost predicate Attempt(c: Config, run: seq<State>, m: nat, t: nat, k: nat, tries: nat, i: nat) {
    exists choice :: StepOf(c, run, m, t, choice) && Candidate(c, k, tries, choice.slot, i) &&
      run[m].threads[t].phase == AllocLoad && run[m].threads[t].key == k && run[m].threads[t].tries == tries
  }

  /** The slot is in use in state m, or the exchange in state m fails because the word has changed since state m0. */
  ghost predicate Denied(run: seq<State>, m0: nat, m: nat, t: nat, i: nat)
    requires m0 <= m < |run|
  {
    if m0 == m then SlotAt(run[m], i).state != Empty
    else
      && t < |run[m].threads| && run[m].threads[t].phase == AllocCas && run[m].threads[t].idx == i
      && (SlotAt(run[m], i).head != SlotAt(run[m0], i).head || SlotAt(run[m], i).state != Empty)
  }

  ghost predicate Refused(c: Config, run: seq<State>, b: nat, n: nat, t: nat, k: nat, tries: nat)
    requires n < |run|
  {
    exists i: nat, m0: nat, m: nat :: b < m0 <= m < n && Attempt(c, run, m0, t, k, tries, i) && Denied(run, m0, m, t, i)
  }

  ghost predicate RefusedUpTo(c: Config, run: seq<State>, b: nat, n: nat, t: nat, k: nat, tries: nat)
    requires n < |run|
  {
    forall j: nat :: j < tries ==> Refused(c, run, b, n, t, k, j)
  }

  /** The word that the exchange expects was loaded from an empty slot on this try. */
  ghost predicate Loaded(c: Config, run: seq<State>, b: nat, n: nat, t: nat, th: Thread)
    requires n < |run|
  {
    exists m: nat :: b < m < n && Attempt(c, run, m, t, th.key, th.tries, th.idx) &&
      SlotAt(run[m], th.idx).head == th.cursor && SlotAt(run[m], th.idx).state == Empty
  }

  /** A constructor has thrown in a step of the thread. */
  ghost predicate ThrowSeen(c: Config, run: seq<State>, b: nat, n: nat, t: nat)
    requires n < |run|
  {
    exists m: nat, choice :: b < m < n && StepOf(c, run, m, t, choice) && choice.throws &&
      (run[m].threads[t].phase == WriteKey || run[m].threads[t].phase == CallFunc)
  }

  /** In state m thread t links slot i at the head of the chain, which did not have the key. */
  ghost predicate Links(c: Config, run: seq<State>, m: nat, t: nat, k: nat, i: nat) {
    && m + 1 < |run| && t < |run[m].threads| && (exists choice :: StepOf(c, run, m, t, choice))
    && run[m].threads[t].phase == LinkCas && Missing(run[m], c.slotOf(k), k, 0, |ChainOf(run[m], c.slotOf(k))|)
    && InChain(run[m + 1], c.slotOf(k), |ChainOf(run[m], c.slotOf(k))|, i)
  }

  ghost predicate LinkSeen(c: Config, run: seq<State>, b: nat, n: nat, t: nat, th: Thread)
    requires n < |run|
  {
    exists m: nat :: b < m < n && Links(c, run, m, t, th.key, th.idx)
  }

  predicate Unallocated(th: Thread) {
    th.phase == LoadPrev || ((th.phase == FindHead || th.phase == FindKey || th.phase == FindNext) &&
                             th.purpose != RetryFind)
  }

  /** Why the operation has ended as it has. */
  ghost predicate Reason(c: Config, run: seq<State>, b: nat, n: nat, t: nat, th: Thread)
    requires n < |run|
  {
    match th.outcome
    case Nothing => false
    case Index(i) =>
      && (th.purpose == PlainFind ==> th.idx == 0)
      && (th.purpose != PlainFind ==> i != 0)
      && (i != 0 && i == th.idx ==> LinkSeen(c, run, b, n, t, th))
    case Thrown =>
      && th.purpose != PlainFind
      && (ThrowSeen(c, run, b, n, t) || RefusedUpTo(c, run, b, n, t, th.key, MAX_ALLOCATION_TRIES))
  }

  /** What the operation that began in state b has done so far. */
  ghost predicate Record(c: Config, run: seq<State>, b: nat, n: nat, t: nat, th: Thread)
    requires n < |run|
  {
    && (Unallocated(th) ==> th.idx == 0)
    && (th.phase == AllocLoad || th.phase == AllocCas ==>
          th.purpose != PlainFind && RefusedUpTo(c, run, b, n, t, th.key, th.tries))
    && (th.phase == AllocCas ==> th.tries < MAX_ALLOCATION_TRIES && Loaded(c, run, b, n, t, th))
    && (th.phase == FreeThrown ==> ThrowSeen(c, run, b, n, t))
    && (th.phase == FreeLost ==> th.cursor != 0)
    && (th.phase == MarkLinked ==> LinkSeen(c, run, b, n, t, th))
    && (th.phase == Done ==> Reason(c, run, b, n, t, th))
  }

  // ---- The steps of an operation ----

  ghost predicate Live(c: Config, run: seq<State>, b: nat, n: nat, t: nat) {
    && c.Ok() && b < n && n + 1 < |run| && t < |run[n].threads| && Inv(c, run[n]) && Known(c, run[n], t)
    && run[n].threads[t].phase != Done && Record(c, run, b, n, t, run[n].threads[t])
  }

  lemma {:induction false} RefusedStays(c: Config, run: seq<State>, b: nat, n: nat, t: nat, k: nat, tries: nat)
    requires n + 1 < |run| && RefusedUpTo(c, run, b, n, t, k, tries)
    ensures RefusedUpTo(c, run, b, n + 1, t, k, tries)
  {
    hide Attempt, Denied;
    var later := n + 1;
    forall j: nat | j < tries
      ensures Refused(c, run, b, later, t, k, j)
    {
      assert Refused(c, run, b, n, t, k, j);
      var i: nat, m0: nat, m: nat :|
        b < m0 <= m < n && Attempt(c, run, m0, t, k, j, i) && Denied(run, m0, m, t, i);
    }
  }

  /** Time only adds to the record. */
  lemma {:induction false} RecordStays(c: Config, run: seq<State>, b: nat, n: nat, t: nat, th: Thread)
    requires n + 1 < |run| && Record(c, run, b, n, t, th)
    ensures Record(c, run, b, n + 1, t, th)
  {
    hide Attempt, StepOf, Links, RefusedUpTo;
    if th.phase == AllocLoad || th.phase == AllocCas { RefusedStays(c, run, b, n, t, th.key, th.tries); }
    if RefusedUpTo(c, run, b, n, t, th.key, MAX_ALLOCATION_TRIES) {
      RefusedStays(c, run, b, n, t, th.key, MAX_ALLOCATION_TRIES);
    }
  }

  /** One more try that has been refused. */
  lemma {:induction false} OneMoreRefused(c: Config, run: seq<State>, b: nat, n: nat, t: nat, k: nat, tries: nat,
                                          i: nat,
                                          m0: nat)
    requires b < m0 <= n && n + 1 < |run| && RefusedUpTo(c, run, b, n, t, k, tries)
    requires Attempt(c, run, m0, t, k, tries, i) && Denied(run, m0, n, t, i)
    ensures RefusedUpTo(c, run, b, n + 1, t, k, tries + 1)
  {
    hide Attempt, Denied, Refused;
    RefusedStays(c, run, b, n, t, k, tries);
    JustRefused(c, run, b, n, t, k, tries, i, m0);
  }

  lemma {:induction false} JustRefused(c: Config, run: seq<State>, b: nat, n: nat, t: nat, k: nat, tries: nat, i: nat,
                                       m0: nat)
    requires b < m0 <= n && n + 1 < |run| && Attempt(c, run, m0, t, k, tries, i) && Denied(run, m0, n, t, i)
    ensures Refused(c, run, b, n + 1, t, k, tries)
  {
    hide Attempt, Denied;
  }

  /** Looking at a slot. */
  lemma {:induction false} AtLoad(c: Config, run: seq<State>, b: nat, n: nat, t: nat, choice: Choice)
    requires Live(c, run, b, n, t) && StepOf(c, run, n, t, choice) && run[n].threads[t].phase == AllocLoad
    ensures Record(c, run, b, n + 1, t, Action(c, run[n], run[n].threads[t], choice).0)
  {
    hide SlotAt, Inv, Known, Step, RefusedUpTo, Denied;
    var th := run[n].threads[t];
    if th.tries < MAX_ALLOCATION_TRIES {
      var i := AllocationAttempt(c, c.slotOf(th.key), th.tries, choice.slot);
      assert Attempt(c, run, n, t, th.key, th.tries, i);
      RefusedStays(c, run, b, n, t, th.key, th.tries);
      if SlotAt(run[n], i).state != Empty {
        InUse(run, n, t, i);
        OneMoreRefused(c, run, b, n, t, th.key, th.tries, i, n);
      }
    } else {
      EnoughRefused(c, run, b, n, t, th);
    }
  }

  lemma {:induction false} InUse(run: seq<State>, n: nat, t: nat, i: nat)
    requires n < |run| && SlotAt(run[n], i).state != Empty
    ensures Denied(run, n, n, t, i)
  {
  }

  lemma {:induction false} EnoughRefused(c: Config, run: seq<State>, b: nat, n: nat, t: nat, th: Thread)
    requires n + 1 < |run| && RefusedUpTo(c, run, b, n, t, th.key, th.tries) && th.tries >= MAX_ALLOCATION_TRIES
    ensures RefusedUpTo(c, run, b, n + 1, t, th.key, MAX_ALLOCATION_TRIES)
  {
    hide Refused;
    RefusedStays(c, run, b, n, t, th.key, th.tries);
  }

  /** Taking it, or losing it to another thread. */
  lemma {:induction false} AtExchange(c: Config, run: seq<State>, b: nat, n: nat, t: nat, choice: Choice)
    requires Live(c, run, b, n, t) && StepOf(c, run, n, t, choice) && run[n].threads[t].phase == AllocCas
    ensures Record(c, run, b, n + 1, t, Action(c, run[n], run[n].threads[t], choice).0)
  {
    hide SlotAt, Inv, Known, Step, RefusedUpTo, Attempt;
    var th := run[n].threads[t];
    var m0: nat :| b < m0 < n && Attempt(c, run, m0, t, th.key, th.tries, th.idx) &&
                   SlotAt(run[m0], th.idx).head == th.cursor && SlotAt(run[m0], th.idx).state == Empty;
    if !(SlotAt(run[n], th.idx).head == th.cursor && SlotAt(run[n], th.idx).state == Empty) {
      OneMoreRefused(c, run, b, n, t, th.key, th.tries, th.idx, m0);
    }
  }

  /** Constructing the key and the value. */
  lemma {:induction false} AtConstruction(c: Config, run: seq<State>, b: nat, n: nat, t: nat, choice: Choice)
    requires Live(c, run, b, n, t) && StepOf(c, run, n, t, choice)
    requires run[n].threads[t].phase in {WriteKey, CallFunc, FreeThrown, WriteNext}
    ensures Record(c, run, b, n + 1, t, Action(c, run[n], run[n].threads[t], choice).0)
  {
    hide SlotAt, Inv, Step, RefusedUpTo, OwnerFacts, Shape, Missing;
  }

  /** Linking the slot. */
  lemma {:induction false} AtLink(c: Config, run: seq<State>, b: nat, n: nat, t: nat, choice: Choice)
    requires Live(c, run, b, n, t) && StepOf(c, run, n, t, choice)
    requires run[n].threads[t].phase in {LinkCas, MarkLinked, FreeLost}
    ensures Record(c, run, b, n + 1, t, Action(c, run[n], run[n].threads[t], choice).0)
  {
    hide SlotAt, ChainOf, Inv, Step, RefusedUpTo, Shape, Missing, Links, StepOf;
    var th := run[n].threads[t];
    if th.phase == LinkCas && SlotAt(run[n], c.slotOf(th.key)).head == th.prevHead &&
       SlotAt(run[n], c.slotOf(th.key)).state == th.prevState {
      LinkIsOwn(c, run, n, t, choice);
    }
    if th.phase == FreeLost { OtherSlot(c, run[n], t); }
  }

  lemma {:induction false} LinkIsOwn(c: Config, run: seq<State>, n: nat, t: nat, choice: Choice)
    requires c.Ok() && StepOf(c, run, n, t, choice) && Inv(c, run[n]) && run[n].threads[t].phase == LinkCas
    requires var th := run[n].threads[t];
             SlotAt(run[n], c.slotOf(th.key)).head == th.prevHead &&
                 SlotAt(run[n], c.slotOf(th.key)).state == th.prevState
    ensures Links(c, run, n, t, run[n].threads[t].key, run[n].threads[t].idx)
  {
    hide SlotAt, Inv, Step, Missing, Shape;
    var th := run[n].threads[t];
    StepMoves(c, run[n], t, choice);
    JustLinked(run[n], run[n + 1], c.slotOf(th.key), th.idx);
  }

  /** The slot that was found is not the one that is given back. */
  lemma {:induction false} OtherSlot(c: Config, s: State, t: nat)
    requires Known(c, s, t) && s.threads[t].phase == FreeLost && s.threads[t].cursor != 0
    ensures s.threads[t].cursor != s.threads[t].idx
  {
    hide SlotAt, Missing, InChain;
  }

  /** Searching. */
  lemma {:induction false} AtSearch(c: Config, run: seq<State>, b: nat, n: nat, t: nat, choice: Choice)
    requires Live(c, run, b, n, t) && StepOf(c, run, n, t, choice)
    requires run[n].threads[t].phase in {LoadPrev, FindHead, FindKey, FindNext}
    ensures Record(c, run, b, n + 1, t, Action(c, run[n], run[n].threads[t], choice).0)
  {
    hide SlotAt, ChainOf, Inv, Step, Refused, Shape, Missing, Links, StepOf;
  }

  // ---- Whole operations ----

  /** Thread t is in an operation that began in state b. */
  ghost predicate Running(run: seq<State>, b: nat, n: nat, t: nat) {
    && b < n <= |run| && t < |run[b].threads| && run[b].threads[t].phase == Done
    && forall r: nat :: b < r < n ==> t < |run[r].threads| && run[r].threads[t].phase != Done
  }

  /** It began at b and ended at n. */
  ghost predicate Operation(run: seq<State>, b: nat, n: nat, t: nat) {
    b + 1 < n < |run| && Running(run, b, n, t) && t < |run[n].threads| && run[n].threads[t].phase == Done
  }

  lemma {:induction false} OwnRecord(c: Config, run: seq<State>, b: nat, n: nat, t: nat, choice: Choice)
    requires Live(c, run, b, n, t) && StepOf(c, run, n, t, choice)
    ensures Record(c, run, b, n + 1, t, Action(c, run[n], run[n].threads[t], choice).0)
  {
    hide Action, Record, Inv, Known, StepOf;
    match run[n].threads[t].phase
    case LoadPrev => AtSearch(c, run, b, n, t, choice);
    case FindHead => AtSearch(c, run, b, n, t, choice);
    case FindKey => AtSearch(c, run, b, n, t, choice);
    case FindNext => AtSearch(c, run, b, n, t, choice);
    case AllocLoad => AtLoad(c, run, b, n, t, choice);
    case AllocCas => AtExchange(c, run, b, n, t, choice);
    case LinkCas => AtLink(c, run, b, n, t, choice);
    case MarkLinked => AtLink(c, run, b, n, t, choice);
    case FreeLost => AtLink(c, run, b, n, t, choice);
    case Done => assert false;
    case _ => AtConstruction(c, run, b, n, t, choice);
  }

  lemma {:induction false} OperationRecord(c: Config, run: seq<State>, b: nat, n: nat, t: nat)
    requires c.Ok() && Reachable(c, run) && Running(run, b, n, t) && b + 1 < n < |run|
    ensures t < |run[n].threads| && Record(c, run, b, n, t, run[n].threads[t])
    decreases n
  {
    hide Inv, Step, Action, Record;
    assert Next(c, run[n - 1], run[n]);
    var u: nat, choice :| u < |run[n - 1].threads| && run[n] == Step(c, run[n - 1], u, choice);
    RunKeepsInv(c, run, n - 1);
    StepMoves(c, run[n - 1], u, choice);
    MovedThreads(c, run[n - 1], run[n], u, choice);
    if n - 1 == b + 1 {
      FirstRecord(c, run, b, t);
    } else {
      OperationRecord(c, run, b, n - 1, t);
    }
    if u == t {
      NowKnown(c, run[n - 1], t);
      OwnRecord(c, run, b, n - 1, t, choice);
    } else {
      RecordStays(c, run, b, n - 1, t, run[n - 1].threads[t]);
    }
  }

  lemma {:induction false} NowKnown(c: Config, s: State, t: nat)
    requires Inv(c, s) && t < |s.threads|
    ensures Known(c, s, t)
  {
    hide ChainSlot, HeadRight, SlotsDistinct, KeysDistinct, StateRight, Shape, OwnerFacts, SearchFacts;
  }

  lemma {:induction false} FirstRecord(c: Config, run: seq<State>, b: nat, t: nat)
    requires c.Ok() && Reachable(c, run) && b + 1 < |run| && t < |run[b].threads| && run[b].threads[t].phase == Done
    requires t < |run[b + 1].threads| && run[b + 1].threads[t].phase != Done
    ensures Record(c, run, b, b + 1, t, run[b + 1].threads[t])
  {
    var choice := Begun(c, run, b, t);
  }

  /** The operation that was asked for. */
  lemma {:induction false} Begun(c: Config, run: seq<State>, b: nat, t: nat) returns (choice: Choice)
    requires c.Ok() && Reachable(c, run) && b + 1 < |run| && t < |run[b].threads| && run[b].threads[t].phase == Done
    requires t < |run[b + 1].threads| && run[b + 1].threads[t].phase != Done
    ensures StepOf(c, run, b, t, choice) && run[b + 1].threads[t] == Begin(c, run[b], choice)
  {
    hide Inv, Step;
    assert Next(c, run[b], run[b + 1]);
    var u: nat, ch :| u < |run[b].threads| && run[b + 1] == Step(c, run[b], u, ch);
    RunKeepsInv(c, run, b);
    StepMoves(c, run[b], u, ch);
    MovedThreads(c, run[b], run[b + 1], u, ch);
    return ch;
  }

  /** A returned index is linked and holds the key. Nil is returned only by a plain find, and only if the chain did not
      have the key when the find began. If the index is the thread's own slot, the thread has linked it in a step of its
      own, at which the chain did not have the key. */
  lemma {:induction false} IndexIsJustified(c: Config, run: seq<State>, b: nat, n: nat, t: nat)
    requires c.Ok() && Reachable(c, run) && Operation(run, b, n, t) && run[n].threads[t].outcome.Index?
    ensures var th := run[n].threads[t]; var i := th.outcome.i; var chain := c.slotOf(th.key);
            && (i != 0 ==> SlotAt(run[n], i).key == th.key && exists j: nat :: InChain(run[n], chain, j, i))
            && (i == 0 ==> th.purpose == PlainFind && Missing(run[b], chain, th.key, 0, |ChainOf(run[b], chain)|))
            && (i != 0 && i == th.idx ==> LinkSeen(c, run, b, n, t, th))
  {
    hide SlotAt, ChainOf, OwnerFacts, ChainSlot, HeadRight, StateRight, SlotsDistinct, KeysDistinct, Shape, Reachable,
         LinkSeen, RefusedUpTo, ThrowSeen, InChain;
    var th := run[n].threads[t];
    OperationRecord(c, run, b, n, t);
    RunKeepsInv(c, run, n);
    assert SearchFacts(c, run[n], th);
    if th.outcome.i == 0 {
      RecordOfOperation(c, run, b, n, t);
      MissingBefore(c, run, b, n, c.slotOf(th.key), th.key);
    }
  }

  /** What is missing from the part of a chain that was there before was missing then. */
  lemma {:induction false} MissingBefore(c: Config, run: seq<State>, b: nat, n: nat, chain: nat, k: nat)
    requires c.Ok() && Reachable(c, run) && b <= n < |run|
    requires Missing(run[n], chain, k, 0, |ChainOf(run[b], chain)|)
    ensures Missing(run[b], chain, k, 0, |ChainOf(run[b], chain)|)
  {
    hide SlotAt, ChainOf, Reachable, InChain;
    forall j: nat, x: nat | j < |ChainOf(run[b], chain)| && InChain(run[b], chain, j, x)
      ensures SlotAt(run[b], x).key != k
    {
      ChainsOnlyGrow(c, run, b, n, chain, j, x);
    }
  }

  /** The kind of an operation is the one asked for, and so is its key. */
  lemma {:induction false} KindIsKept(c: Config, run: seq<State>, b: nat, n: nat, t: nat)
    requires c.Ok() && Reachable(c, run) && Running(run, b, n, t) && b < n - 1 && n < |run|
    requires b + 1 == n - 1 ==> run[b + 1].threads[t].phase != Done
    ensures exists choice :: StepOf(c, run, b, t, choice) && t < |run[n].threads| &&
              run[n].threads[t].key == choice.key && (run[n].threads[t].purpose == PlainFind <==> choice.find)
    decreases n
  {
    hide Inv, Step, Action, StepOf;
    assert Next(c, run[n - 1], run[n]);
    var u: nat, ch :| u < |run[n - 1].threads| && run[n] == Step(c, run[n - 1], u, ch);
    RunKeepsInv(c, run, n - 1);
    StepMoves(c, run[n - 1], u, ch);
    MovedThreads(c, run[n - 1], run[n], u, ch);
    if n - 1 == b + 1 {
      var choice := Begun(c, run, b, t);
    } else {
      KindIsKept(c, run, b, n - 1, t);
    }
    NowKnown(c, run[n - 1], t);
    SameKind(c, run[n - 1], t, ch);
  }

  lemma {:induction false} SameKind(c: Config, s: State, t: nat, choice: Choice)
    requires Known(c, s, t) && s.threads[t].phase != Done
    ensures var th := Action(c, s, s.threads[t], choice).0;
            th.key == s.threads[t].key && (th.purpose == PlainFind <==> s.threads[t].purpose == PlainFind)
  {
    hide SlotAt, ChainOf, OwnerFacts, Missing, Answer, Shape;
  }

  /** An operation ends in an exception only if a constructor has thrown in a step of its own, or if it has been refused
      a slot a thousand times. The first eight tries were at the slot of the key and the seven behind it, as far as they
      exist; each time the slot was in use, or its word changed between the look and the exchange. */
  lemma {:induction false} ThrownIsJustified(c: Config, run: seq<State>, b: nat, n: nat, t: nat)
    requires c.Ok() && Reachable(c, run) && Operation(run, b, n, t) && run[n].threads[t].outcome == Thrown
    ensures ThrowSeen(c, run, b, n, t) || RefusedUpTo(c, run, b, n, t, run[n].threads[t].key, MAX_ALLOCATION_TRIES)
    ensures run[n].threads[t].purpose != PlainFind
  {
    hide Reachable, RefusedUpTo, ThrowSeen, LinkSeen;
    OperationRecord(c, run, b, n, t);
  }

  /** While one of the first eight slots stays empty and its word unchanged, an operation does not run out of tries. */
  lemma {:induction false} FreeSlotIsEnough(c: Config, run: seq<State>, b: nat, n: nat, t: nat, j: nat, head: nat)
    requires c.Ok() && Reachable(c, run) && Operation(run, b, n, t) && run[n].threads[t].outcome == Thrown
    requires j < 8 && c.slotOf(run[n].threads[t].key) + j < c.numSlots
    requires var i := c.slotOf(run[n].threads[t].key) + j;
             forall m: nat :: b < m < n ==> SlotAt(run[m], i).state == Empty && SlotAt(run[m], i).head == head
    ensures ThrowSeen(c, run, b, n, t)
  {
    hide Reachable, ThrowSeen, StepOf, SlotAt;
    ThrownIsJustified(c, run, b, n, t);
    var k := run[n].threads[t].key;
    if RefusedUpTo(c, run, b, n, t, k, MAX_ALLOCATION_TRIES) {
      assert Refused(c, run, b, n, t, k, j);
      var i: nat, m0: nat, m: nat :|
        b < m0 <= m < n && Attempt(c, run, m0, t, k, j, i) && Denied(run, m0, m, t, i);
      assert i == c.slotOf(k) + j;
    }
  }
}
