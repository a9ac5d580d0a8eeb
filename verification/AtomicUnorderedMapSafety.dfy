/** Chains only grow at their heads: they are acyclic, hold a key once, and a returned index is found ever after. */
module AtomicUnorderedMapSafety {
  import opened AtomicUnorderedMap

  /** The head of a chain when it was n slots long. */
  function HeadOf(chain: seq<nat>, n: nat): nat {
    if 0 < n <= |chain| then chain[n - 1] else 0
  }

  ghost predicate Shape(c: Config, s: State) {
    c.Ok() && |s.slots| == c.numSlots && |s.linked| == c.numSlots && SlotAt(s, 0).state == Constructing
  }

  predicate InChain(s: State, b: nat, j: nat, x: nat) {
    j < |ChainOf(s, b)| && ChainOf(s, b)[j] == x
  }

  /** The j-th slot linked into chain b: in use, with a key of this chain, and linked to its predecessor. */
  ghost predicate ChainSlot(c: Config, s: State, b: nat, j: nat) {
    j < |ChainOf(s, b)| ==>
      var x := ChainOf(s, b)[j];
      0 < x < c.numSlots && SlotAt(s, x).state != Empty && c.slotOf(SlotAt(s, x).key) == b &&
          SlotAt(s, x).next == HeadOf(ChainOf(s, b), j)
  }

  ghost predicate HeadRight(s: State, b: nat) {
    SlotAt(s, b).head == HeadOf(ChainOf(s, b), |ChainOf(s, b)|)
  }

  /** No slot is in two places. */
  ghost predicate SlotsDistinct(s: State) {
    forall b: nat, j: nat, x: nat, b': nat, j': nat :: InChain(s, b, j, x) && InChain(s, b', j', x) ==>
        b == b' && j == j'
  }

  /** No key is in two slots of a chain. */
  ghost predicate KeysDistinct(s: State) {
    forall b: nat, j: nat, x: nat, j': nat, x': nat ::
      InChain(s, b, j, x) && InChain(s, b, j', x') && SlotAt(s, x).key == SlotAt(s, x').key ==> j == j'
  }

  /** The thread has allocated slot idx and not linked it yet. */
  predicate Owns(th: Thread) {
    match th.phase
    case WriteKey => true
    case CallFunc => true
    case FreeThrown => true
    case WriteNext => true
    case LinkCas => true
    case FreeLost => true
    case FindHead => th.purpose == RetryFind
    case FindKey => th.purpose == RetryFind
    case FindNext => th.purpose == RetryFind
    case _ => false
  }

  predicate Holds(th: Thread) {
    Owns(th) || th.phase == MarkLinked
  }

  predicate SameSlot(a: Thread, b: Thread) {
    Holds(a) && Holds(b) && a.idx == b.idx
  }

  ghost predicate Free(s: State, x: nat) {
    forall b: nat, j: nat :: !InChain(s, b, j, x)
  }

  ghost predicate OwnerFacts(c: Config, s: State, th: Thread) {
    && (Holds(th) ==> 0 < th.idx < c.numSlots && SlotAt(s, th.idx).state == Constructing)
    && (Owns(th) ==> Free(s, th.idx))
    && (th.phase == MarkLinked ==> exists j: nat :: InChain(s, c.slotOf(th.key), j, th.idx))
    && (Holds(th) && th.phase != WriteKey && th.phase != FreeThrown ==> SlotAt(s, th.idx).key == th.key)
    && (th.phase == LinkCas ==> SlotAt(s, th.idx).next == th.prevHead)
  }

  /** None of the slots linked between the two lengths has this key. */
  ghost predicate Missing(s: State, b: nat, k: nat, from: nat, to: nat) {
    forall j: nat, x: nat :: from <= j < to && InChain(s, b, j, x) ==> SlotAt(s, x).key != k
  }

  predicate Expecting(th: Thread) {
    th.purpose != PlainFind && th.phase != LoadPrev && th.phase != Done
  }

  /** What a thread has learnt about its chain. */
  ghost predicate SearchFacts(c: Config, s: State, th: Thread) {
    var b := c.slotOf(th.key);
    && th.known <= |ChainOf(s, b)|
    && (th.phase !in {FindHead, FindKey, FindNext, Done} ==> th.purpose != PlainFind)
    && (th.phase == LoadPrev ==> th.purpose == FirstFind)
    && (Expecting(th) ==> th.seen <= |ChainOf(s, b)| && th.prevHead == HeadOf(ChainOf(s, b), th.seen))
    && (Expecting(th) && th.phase !in {FindHead, FindKey, FindNext, FreeLost} ==> Missing(s, b, th.key, 0, th.seen))
    && (th.phase == FindKey || th.phase == FindNext ==>
          && th.known <= th.top <= |ChainOf(s, b)| && th.pos <= th.top && (Expecting(th) ==> th.seen <= th.top)
          && th.cursor == HeadOf(ChainOf(s, b), th.pos) && Missing(s, b, th.key, th.pos, th.top)
          && (th.phase == FindNext ==> th.pos > 0 && SlotAt(s, th.cursor).key != th.key))
    && (th.phase == FreeLost ==> Answer(c, s, th, th.cursor))
    && (th.phase == MarkLinked ==> Answer(c, s, th, th.idx))
    && (th.phase == Done && th.outcome.Index? ==> Answer(c, s, th, th.outcome.i))
  }

  /** A returned index holds the key; nil means that the chain did not contain it when the operation began. */
  ghost predicate Answer(c: Config, s: State, th: Thread, i: nat) {
    var b := c.slotOf(th.key);
    if i == 0 then Missing(s, b, th.key, 0, th.known)
    else SlotAt(s, i).key == th.key && exists j: nat :: InChain(s, b, j, i)
  }

  ghost predicate Inv(c: Config, s: State) {
    && Shape(c, s)
    && (forall b: nat, j: nat :: b < c.numSlots ==> ChainSlot(c, s, b, j))
    && (forall b: nat :: b < c.numSlots ==> HeadRight(s, b))
    && SlotsDistinct(s) && KeysDistinct(s)
    && (forall t: nat :: t < |s.threads| ==> OwnerFacts(c, s, s.threads[t]))
    && (forall t: nat, u: nat :: t < |s.threads| && u < |s.threads| && SameSlot(s.threads[t], s.threads[u]) ==> t == u)
    && (forall x: nat :: 0 < x < c.numSlots ==> StateRight(c, s, x))
    && (forall t: nat :: t < |s.threads| ==> SearchFacts(c, s, s.threads[t]))
  }

  /** A slot under construction has an owner; a linked one is in a chain. */
  ghost predicate StateRight(c: Config, s: State, x: nat) {
    && (SlotAt(s, x).state == Constructing ==> exists t: nat ::
          t < |s.threads| && Holds(s.threads[t]) && s.threads[t].idx == x)
    && (SlotAt(s, x).state == Linked ==> exists b: nat, j: nat :: InChain(s, b, j, x))
  }

  // ---- The effects of steps ----

  ghost predicate Allowed(c: Config, s: State, th: Thread, e: Effect) {
    match e
    case NoEffect => true
    case SetState(i, state) =>
      && 0 < i < c.numSlots && i == th.idx
      && (state == Constructing ==> SlotAt(s, i).state == Empty && th.phase == AllocCas)
      && (state == Empty ==> Owns(th) && Free(s, i))
      && (state == Linked ==> th.phase == MarkLinked)
    case SetKey(i, key) => 0 < i < c.numSlots && i == th.idx && Owns(th) && Free(s, i)
    case SetNext(i, next) => 0 < i < c.numSlots && i == th.idx && Owns(th) && Free(s, i)
    case Link(b, i) =>
      && 0 < i < c.numSlots && i == th.idx && Owns(th) && Free(s, i) && b == c.slotOf(th.key) < c.numSlots
      && SlotAt(s, i).key == th.key && SlotAt(s, i).state == Constructing
      && SlotAt(s, i).next == HeadOf(ChainOf(s, b), |ChainOf(s, b)|)
      && Missing(s, b, th.key, 0, |ChainOf(s, b)|)
  }

  /** An unchanged head means an unchanged chain: slots are linked once and never freed. */
  lemma {:induction false} NoAba(c: Config, s: State, b: nat, n: nat)
    requires Inv(c, s) && b < c.numSlots && n <= |ChainOf(s, b)| && SlotAt(s, b).head == HeadOf(ChainOf(s, b), n)
    ensures n == |ChainOf(s, b)|
  {
    hide OwnerFacts, SearchFacts, StateRight, KeysDistinct, SlotAt;
    var m := |ChainOf(s, b)|;
    assert HeadRight(s, b);
    if n < m {
      assert ChainSlot(c, s, b, m - 1);
      if n > 0 { AtMostOnce(s, b, n - 1, m - 1); }
    }
  }

  lemma {:induction false} AtMostOnce(s: State, b: nat, i: nat, j: nat)
    requires SlotsDistinct(s) && i < j < |ChainOf(s, b)|
    ensures ChainOf(s, b)[i] != ChainOf(s, b)[j]
  {
    hide ChainOf;
    assert InChain(s, b, i, ChainOf(s, b)[i]) && InChain(s, b, j, ChainOf(s, b)[j]);
  }

  ghost predicate Known(c: Config, s: State, t: nat) {
    t < |s.threads| && Shape(c, s) && OwnerFacts(c, s, s.threads[t]) && SearchFacts(c, s, s.threads[t])
  }

  lemma {:induction false} StepIsAllowed(c: Config, s: State, t: nat, choice: Choice)
    requires Inv(c, s) && t < |s.threads|
    ensures Allowed(c, s, s.threads[t], Action(c, s, s.threads[t], choice).1)
  {
    hide ChainSlot, HeadRight, SlotsDistinct, KeysDistinct, StateRight, Free, Missing, Answer;
    var th := s.threads[t];
    assert Known(c, s, t);
    if th.phase == LinkCas && SlotAt(s, c.slotOf(th.key)).head == th.prevHead {
      NoAba(c, s, c.slotOf(th.key), th.seen);
    }
  }

  /** The slots and chains after an effect. */
  ghost predicate View(s: State, s': State, e: Effect) {
    && (forall x: nat {:trigger SlotAt(s', x)} ::
          && SlotAt(s', x).head == (if e.Link? && e.b == x then e.i else SlotAt(s, x).head)
          && SlotAt(s', x).state == (if e.SetState? && e.i == x then e.state
                                     else if e.Link? && e.b == x && e.i == x then Linked else SlotAt(s, x).state)
          && SlotAt(s', x).next == (if e.SetNext? && e.i == x then e.next else SlotAt(s, x).next)
          && SlotAt(s', x).key == (if e.SetKey? && e.i == x then e.key else SlotAt(s, x).key))
    && (forall b: nat {:trigger ChainOf(s', b)} :: ChainOf(s', b) == ChainOf(s, b) + if e.Link? && e.b == b then [e.i]
        else [])
  }

  ghost predicate Moved(c: Config, s: State, s': State, t: nat, choice: Choice) {
    && t < |s.threads| && Shape(c, s) && s' == Step(c, s, t, choice)
    && Allowed(c, s, s.threads[t], Action(c, s, s.threads[t], choice).1)
    && View(s, s', Action(c, s, s.threads[t], choice).1)
    && |s'.threads| == |s.threads| && s'.threads == s.threads[t := Action(c, s, s.threads[t], choice).0]
  }

  lemma {:induction false} StepMoves(c: Config, s: State, t: nat, choice: Choice)
    requires Inv(c, s) && t < |s.threads|
    ensures Moved(c, s, Step(c, s, t, choice), t, choice)
  {
    hide Action, ChainSlot, HeadRight, SlotsDistinct, KeysDistinct, StateRight, Free, Missing, OwnerFacts, SearchFacts;
    StepIsAllowed(c, s, t, choice);
    EffectView(c, s, s.threads[t], Action(c, s, s.threads[t], choice).1, Step(c, s, t, choice));
  }

  lemma {:induction false} EffectView(c: Config, s: State, th: Thread, e: Effect, s': State)
    requires Shape(c, s) && Allowed(c, s, th, e) && s'.slots == Apply(s, e).slots && s'.linked == Apply(s, e).linked
    ensures View(s, s', e)
  {
    hide Free, Missing;
  }

  lemma {:induction false} ShapeKept(c: Config, s: State, s': State, t: nat, choice: Choice)
    requires Moved(c, s, s', t, choice)
    ensures Shape(c, s')
  {
    hide Action, Free, Missing;
  }

  /** Chains only grow; what is in one keeps its key and its successor, and is never freed. */
  lemma {:induction false} ChainsGrow(c: Config, s: State, s': State, t: nat, choice: Choice, b: nat, j: nat, x: nat)
    requires Moved(c, s, s', t, choice) && InChain(s, b, j, x)
    ensures InChain(s', b, j, x) && SlotAt(s', x).key == SlotAt(s, x).key && SlotAt(s', x).next == SlotAt(s, x).next
    ensures SlotAt(s, x).state != Empty ==> SlotAt(s', x).state != Empty
    ensures SlotAt(s, x).state == Linked ==> SlotAt(s', x).state == Linked || SlotAt(s', x).state == Constructing
  {
    hide Action, Step, SlotAt, ChainOf, Missing;
  }

  /** The only new chain slot is the one that is linked. */
  lemma {:induction false} NewInChain(c: Config, s: State, s': State, t: nat, choice: Choice, b: nat, j: nat, x: nat)
    requires Moved(c, s, s', t, choice) && InChain(s', b, j, x) && !InChain(s, b, j, x)
    ensures Action(c, s, s.threads[t], choice).1 == Link(b, x) && j == |ChainOf(s, b)|
  {
    hide Action, Step, SlotAt, ChainOf, Missing, Free;
  }

  lemma {:induction false} ChainSlotKept(c: Config, s: State, s': State, t: nat, choice: Choice, b: nat, j: nat)
    requires Moved(c, s, s', t, choice) && b < c.numSlots && ChainSlot(c, s, b, j)
    ensures ChainSlot(c, s', b, j)
  {
    hide Action, Step, SlotAt, ChainOf, Missing, Free, Moved;
    if j < |ChainOf(s', b)| {
      var x := ChainOf(s', b)[j];
      assert InChain(s', b, j, x);
      ChainPrefix(c, s, s', t, choice, b);
      if InChain(s, b, j, x) {
        ChainsGrow(c, s, s', t, choice, b, j, x);
      } else {
        NewInChain(c, s, s', t, choice, b, j, x);
        LinkedSlot(c, s, s', t, choice, b, x);
      }
    }
  }

  lemma {:induction false} ChainPrefix(c: Config, s: State, s': State, t: nat, choice: Choice, b: nat)
    requires Moved(c, s, s', t, choice)
    ensures |ChainOf(s, b)| <= |ChainOf(s', b)|
    ensures forall n: nat :: n <= |ChainOf(s, b)| ==> HeadOf(ChainOf(s', b), n) == HeadOf(ChainOf(s, b), n)
  {
    hide Action, Step, SlotAt, ChainOf, Missing, Free, Allowed;
  }

  /** The slot that has just been linked. */
  lemma {:induction false} LinkedSlot(c: Config, s: State, s': State, t: nat, choice: Choice, b: nat, x: nat)
    requires Moved(c, s, s', t, choice) && Action(c, s, s.threads[t], choice).1 == Link(b, x)
    ensures 0 < x < c.numSlots && SlotAt(s', x).state != Empty && c.slotOf(SlotAt(s', x).key) == b
    ensures SlotAt(s', x).key == s.threads[t].key && SlotAt(s', x).next == HeadOf(ChainOf(s, b), |ChainOf(s, b)|)
    ensures Missing(s, b, s.threads[t].key, 0, |ChainOf(s, b)|) && Free(s, x) && Owns(s.threads[t]) &&
            x == s.threads[t].idx
  {
    hide Action, Step, SlotAt, ChainOf, Missing, Free;
  }

  lemma {:induction false} HeadKept(c: Config, s: State, s': State, t: nat, choice: Choice, b: nat)
    requires Moved(c, s, s', t, choice) && HeadRight(s, b)
    ensures HeadRight(s', b)
  {
    hide Action, Step, SlotAt, ChainOf, Missing, Free, Allowed;
  }

  lemma {:induction false} SlotsStayDistinct(c: Config, s: State, s': State, t: nat, choice: Choice)
    requires Moved(c, s, s', t, choice) && SlotsDistinct(s)
    ensures SlotsDistinct(s')
  {
    hide Action, Step, SlotAt, ChainOf, Missing, Moved, InChain;
    forall b: nat, j: nat, x: nat, b': nat, j': nat | InChain(s', b, j, x) && InChain(s', b', j', x)
      ensures b == b' && j == j'
    {
      if !InChain(s, b, j, x) {
        NewInChain(c, s, s', t, choice, b, j, x);
        LinkedSlot(c, s, s', t, choice, b, x);
      }
      if !InChain(s, b', j', x) {
        NewInChain(c, s, s', t, choice, b', j', x);
        LinkedSlot(c, s, s', t, choice, b', x);
      }
    }
  }

  lemma {:induction false} KeysStayDistinct(c: Config, s: State, s': State, t: nat, choice: Choice)
    requires Moved(c, s, s', t, choice) && KeysDistinct(s) && SlotsDistinct(s')
    ensures KeysDistinct(s')
  {
    hide Action, Step, SlotAt, ChainOf, Moved, InChain, SlotsDistinct, Free;
    forall b: nat, j: nat, x: nat, j': nat, x': nat | InChain(s', b, j, x) && InChain(s', b, j', x') &&
        SlotAt(s', x).key == SlotAt(s', x').key
      ensures j == j'
    {
      KeyPair(c, s, s', t, choice, b, j, x, j', x');
    }
  }

  lemma {:induction false} KeyPair(c: Config, s: State, s': State, t: nat, choice: Choice, b: nat, j: nat, x: nat,
                                   j': nat, x': nat)
    requires Moved(c, s, s', t, choice) && KeysDistinct(s)
    requires InChain(s', b, j, x) && InChain(s', b, j', x') && SlotAt(s', x).key == SlotAt(s', x').key
    ensures j == j'
  {
    hide Action, Step, SlotAt, ChainOf, Moved, Free;
    if InChain(s, b, j, x) && InChain(s, b, j', x') {
      ChainsGrow(c, s, s', t, choice, b, j, x);
      ChainsGrow(c, s, s', t, choice, b, j', x');
    } else if InChain(s, b, j, x) {
      NewKey(c, s, s', t, choice, b, j, x, j', x');
    } else if InChain(s, b, j', x') {
      NewKey(c, s, s', t, choice, b, j', x', j, x);
    } else {
      NewInChain(c, s, s', t, choice, b, j, x);
      NewInChain(c, s, s', t, choice, b, j', x');
    }
  }

  /** A newly linked key differs from all keys of its chain. */
  lemma {:induction false} NewKey(c: Config, s: State, s': State, t: nat, choice: Choice, b: nat, j: nat, x: nat,
                                  j': nat, x': nat)
    requires Moved(c, s, s', t, choice) && InChain(s, b, j, x) && InChain(s', b, j', x') && !InChain(s, b, j', x')
    ensures SlotAt(s', x).key != SlotAt(s', x').key
  {
    hide Action, Step, SlotAt, ChainOf, Moved, Free;
    ChainsGrow(c, s, s', t, choice, b, j, x);
    NewInChain(c, s, s', t, choice, b, j', x');
    LinkedSlot(c, s, s', t, choice, b, x');
  }

  // ---- Owners ----

  lemma {:induction false} FreeKept(c: Config, s: State, s': State, t: nat, choice: Choice, x: nat)
    requires Moved(c, s, s', t, choice) && Free(s, x)
    ensures Free(s', x) || (Action(c, s, s.threads[t], choice).1.Link? && x == s.threads[t].idx)
  {
    hide Action, Step, SlotAt, ChainOf, Missing, Moved, InChain;
    if !Free(s', x) {
      var b: nat, j: nat :| InChain(s', b, j, x);
      NewInChain(c, s, s', t, choice, b, j, x);
      LinkedSlot(c, s, s', t, choice, b, x);
    }
  }

  /** What a step of t leaves alone in a slot that another thread holds. */
  lemma {:induction false} HeldSlotKept(c: Config, s: State, s': State, t: nat, choice: Choice, x: nat)
    requires Moved(c, s, s', t, choice) && SlotAt(s, x).state == Constructing &&
             (Holds(s.threads[t]) ==> s.threads[t].idx != x)
    ensures SlotAt(s', x).state == Constructing && SlotAt(s', x).key == SlotAt(s, x).key &&
            SlotAt(s', x).next == SlotAt(s, x).next
  {
    hide Action, Step, SlotAt, ChainOf, Missing, Free;
  }

  lemma {:induction false} OthersOwn(c: Config, s: State, s': State, t: nat, choice: Choice, u: nat)
    requires Moved(c, s, s', t, choice) && u != t && u < |s.threads| && OwnerFacts(c, s, s.threads[u]) &&
             !SameSlot(s.threads[t], s.threads[u])
    ensures OwnerFacts(c, s', s'.threads[u])
  {
    hide Action, Step, SlotAt, ChainOf, Missing, Allowed, View, Free, InChain;
    var th := s.threads[u];
    if Holds(th) {
      HeldSlotKept(c, s, s', t, choice, th.idx);
      if Owns(th) {
        FreeKept(c, s, s', t, choice, th.idx);
        if Action(c, s, s.threads[t], choice).1.Link? { LinkerOwns(c, s, t, choice); }
      }
      if th.phase == MarkLinked {
        var j: nat :| InChain(s, c.slotOf(th.key), j, th.idx);
        ChainsGrow(c, s, s', t, choice, c.slotOf(th.key), j, th.idx);
      }
    }
  }

  lemma {:induction false} LinkerOwns(c: Config, s: State, t: nat, choice: Choice)
    requires t < |s.threads| && Action(c, s, s.threads[t], choice).1.Link?
    ensures Owns(s.threads[t])
  {
    hide SlotAt, ChainOf;
  }

  /** The slot a thread has just allocated is in no chain. */
  lemma {:induction false} OwnOwns(c: Config, s: State, s': State, t: nat, choice: Choice)
    requires Moved(c, s, s', t, choice) && Known(c, s, t) && Inv(c, s)
    ensures OwnerFacts(c, s', s'.threads[t])
  {
    hide Step, SlotAt, ChainOf, Missing, Inv, Action, View, Allowed, Moved, SearchFacts, Free;
    var th := s.threads[t];
    MovedThreads(c, s, s', t, choice);
    if th.phase == AllocCas {
      OwnAlloc(c, s, s', t, choice);
    } else if th.phase == LinkCas {
      OwnLink(c, s, s', t, choice);
    } else if Holds(th) {
      OwnHold(c, s, s', t, choice);
    } else {
      PurposeKnown(c, s, t);
      OwnNothing(c, s, t, choice);
    }
  }

  lemma {:induction false} PurposeKnown(c: Config, s: State, t: nat)
    requires Known(c, s, t)
    ensures s.threads[t].phase == LoadPrev ==> s.threads[t].purpose == FirstFind
  {
    hide SlotAt, ChainOf, OwnerFacts;
  }

  lemma {:induction false} MovedThreads(c: Config, s: State, s': State, t: nat, choice: Choice)
    requires Moved(c, s, s', t, choice)
    ensures t < |s.threads| == |s'.threads| && s'.threads[t] == Action(c, s, s.threads[t], choice).0
    ensures forall u :: 0 <= u < |s.threads| && u != t ==> s'.threads[u] == s.threads[u]
  {
    hide Action, View, Allowed, Step;
  }

  lemma {:induction false} OwnAlloc(c: Config, s: State, s': State, t: nat, choice: Choice)
    requires Moved(c, s, s', t, choice) && Known(c, s, t) && Inv(c, s) && s.threads[t].phase == AllocCas
    ensures OwnerFacts(c, s', Action(c, s, s.threads[t], choice).0)
  {
    hide Step, SlotAt, ChainOf, Missing, Inv, SearchFacts, Free;
    var x := s.threads[t].idx;
    if SlotAt(s, x).state == Empty {
      EmptyIsFree(c, s, x);
      FreeKept(c, s, s', t, choice, x);
    }
  }

  lemma {:induction false} EmptyIsFree(c: Config, s: State, x: nat)
    requires Inv(c, s) && SlotAt(s, x).state == Empty
    ensures Free(s, x)
  {
    hide SlotAt, OwnerFacts, SearchFacts, StateRight, HeadRight;
    forall b: nat, j: nat
      ensures !InChain(s, b, j, x)
    {
      if InChain(s, b, j, x) { ChainInUse(c, s, b, j, x); }
    }
  }

  lemma {:induction false} ChainInUse(c: Config, s: State, b: nat, j: nat, x: nat)
    requires Inv(c, s) && InChain(s, b, j, x)
    ensures 0 < x < c.numSlots && SlotAt(s, x).state != Empty && c.slotOf(SlotAt(s, x).key) == b
  {
    hide SlotAt, OwnerFacts, SearchFacts, StateRight, HeadRight;
    ChainInRange(c, s, b, j, x);
    assert ChainSlot(c, s, b, j);
  }

  lemma {:induction false} ChainInRange(c: Config, s: State, b: nat, j: nat, x: nat)
    requires Shape(c, s) && InChain(s, b, j, x)
    ensures b < c.numSlots
  {
  }

  lemma {:induction false} OwnLink(c: Config, s: State, s': State, t: nat, choice: Choice)
    requires Moved(c, s, s', t, choice) && Known(c, s, t) && s.threads[t].phase == LinkCas
    ensures OwnerFacts(c, s', Action(c, s, s.threads[t], choice).0)
  {
    hide Step, SlotAt, Missing, SearchFacts, Free;
    var th := s.threads[t];
    var b := c.slotOf(th.key);
    if Action(c, s, th, choice).1.Link? {
      assert ChainOf(s', b) == ChainOf(s, b) + [th.idx];
      assert InChain(s', b, |ChainOf(s, b)|, th.idx);
    } else {
      FreeKept(c, s, s', t, choice, th.idx);
    }
  }

  lemma {:induction false} OwnHold(c: Config, s: State, s': State, t: nat, choice: Choice)
    requires Moved(c, s, s', t, choice) && Known(c, s, t) && Holds(s.threads[t]) && s.threads[t].phase != LinkCas
    ensures OwnerFacts(c, s', Action(c, s, s.threads[t], choice).0)
  {
    hide Step, SlotAt, Missing, SearchFacts, Free, ChainOf;
    if Owns(s.threads[t]) { FreeKept(c, s, s', t, choice, s.threads[t].idx); }
  }

  lemma {:induction false} OwnNothing(c: Config, s: State, t: nat, choice: Choice)
    requires t < |s.threads| && !Holds(s.threads[t]) && s.threads[t].phase != AllocCas
    requires s.threads[t].phase == LoadPrev ==> s.threads[t].purpose == FirstFind
    ensures !Holds(Action(c, s, s.threads[t], choice).0)
  {
    hide SlotAt, ChainOf;
  }

  /** Two threads never hold the same slot. */
  lemma {:induction false} HoldersStayDistinct(c: Config, s: State, s': State, t: nat, choice: Choice, u: nat)
    requires Moved(c, s, s', t, choice) && u != t && u < |s.threads| && OwnerFacts(c, s, s.threads[u]) &&
             !SameSlot(s.threads[t], s.threads[u])
    requires s.threads[t].phase == LoadPrev ==> s.threads[t].purpose == FirstFind
    ensures u < |s'.threads| && t < |s'.threads| && !SameSlot(s'.threads[t], s'.threads[u])
  {
    hide Step, SlotAt, ChainOf, Missing, View, Action, Moved, Free;
    MovedThreads(c, s, s', t, choice);
    NewHolder(c, s, t, choice);
  }

  /** A thread that comes to hold a slot found it empty. */
  lemma {:induction false} NewHolder(c: Config, s: State, t: nat, choice: Choice)
    requires t < |s.threads| && (s.threads[t].phase == LoadPrev ==> s.threads[t].purpose == FirstFind)
    ensures var th := Action(c, s, s.threads[t], choice).0;
            Holds(th) ==> th.idx == s.threads[t].idx && (Holds(s.threads[t]) || SlotAt(s, th.idx).state == Empty)
  {
    hide SlotAt, ChainOf;
  }

  /** States and owners after a step. */
  lemma {:induction false} StateKept(c: Config, s: State, s': State, t: nat, choice: Choice, x: nat)
    requires Moved(c, s, s', t, choice) && 0 < x < c.numSlots && StateRight(c, s, x) && OwnerFacts(c, s, s.threads[t])
    ensures StateRight(c, s', x)
  {
    hide Step, SlotAt, ChainOf, Missing, Action, Free, InChain, Moved;
    MovedThreads(c, s, s', t, choice);
    if SlotAt(s', x).state == Linked { LinkedKept(c, s, s', t, choice, x); }
    if SlotAt(s', x).state == Constructing { OwnerKept(c, s, s', t, choice, x); }
  }

  lemma {:induction false} LinkedKept(c: Config, s: State, s': State, t: nat, choice: Choice, x: nat)
    requires Moved(c, s, s', t, choice) && SlotAt(s', x).state == Linked && StateRight(c, s, x) &&
             OwnerFacts(c, s, s.threads[t])
    ensures exists b: nat, j: nat :: InChain(s', b, j, x)
  {
    hide Step, SlotAt, ChainOf, Missing, Action, Free;
    var e := Action(c, s, s.threads[t], choice).1;
    if SlotAt(s, x).state == Linked {
      var b: nat, j: nat :| InChain(s, b, j, x);
      ChainsGrow(c, s, s', t, choice, b, j, x);
    } else if e.Link? {
      assert ChainOf(s', e.b) == ChainOf(s, e.b) + [x];
      assert InChain(s', e.b, |ChainOf(s, e.b)|, x);
    } else {
      var j: nat :| InChain(s, c.slotOf(s.threads[t].key), j, s.threads[t].idx);
      ChainsGrow(c, s, s', t, choice, c.slotOf(s.threads[t].key), j, x);
    }
  }

  lemma {:induction false} OwnerKept(c: Config, s: State, s': State, t: nat, choice: Choice, x: nat)
    requires Moved(c, s, s', t, choice) && SlotAt(s', x).state == Constructing && StateRight(c, s, x) && 0 < x
    ensures exists u: nat :: u < |s'.threads| && Holds(s'.threads[u]) && s'.threads[u].idx == x
  {
    hide Step, ChainOf, Missing, Action, Free, InChain, SlotAt;
    MovedThreads(c, s, s', t, choice);
    if SlotAt(s, x).state == Constructing {
      var u: nat :| u < |s.threads| && Holds(s.threads[u]) && s.threads[u].idx == x;
      if u == t { StillHolds(c, s, s', t, choice); }
      assert Holds(s'.threads[u]) && s'.threads[u].idx == x;
    } else {
      JustAllocated(c, s, t, choice);
      assert Holds(s'.threads[t]) && s'.threads[t].idx == x;
    }
  }

  lemma {:induction false} StillHolds(c: Config, s: State, s': State, t: nat, choice: Choice)
    requires Moved(c, s, s', t, choice) && Holds(s.threads[t]) && SlotAt(s', s.threads[t].idx).state == Constructing
    ensures var th := Action(c, s, s.threads[t], choice).0; Holds(th) && th.idx == s.threads[t].idx
  {
    hide Step, ChainOf, Missing, Free, SlotAt;
  }

  lemma {:induction false} JustAllocated(c: Config, s: State, t: nat, choice: Choice)
    requires t < |s.threads|
    ensures var (th, e) := Action(c, s, s.threads[t], choice);
            e.SetState? && e.state == Constructing ==> Holds(th) && th.idx == e.i
  {
    hide SlotAt, ChainOf;
  }

  // ---- Searches ----

  lemma {:induction false} MissingKept(c: Config, s: State, s': State, t: nat, choice: Choice, b: nat, k: nat,
                                       from: nat, to: nat)
    requires Moved(c, s, s', t, choice) && Missing(s, b, k, from, to) && to <= |ChainOf(s, b)|
    ensures Missing(s', b, k, from, to)
  {
    hide Action, Step, SlotAt, ChainOf, Moved, Free, InChain;
    forall j: nat, x: nat | from <= j < to && InChain(s', b, j, x)
      ensures SlotAt(s', x).key != k
    {
      if !InChain(s, b, j, x) { NewInChain(c, s, s', t, choice, b, j, x); }
      ChainsGrow(c, s, s', t, choice, b, j, x);
    }
  }

  lemma {:induction false} AnswerKept(c: Config, s: State, s': State, t: nat, choice: Choice, th: Thread, i: nat)
    requires Moved(c, s, s', t, choice) && Answer(c, s, th, i) && th.known <= |ChainOf(s, c.slotOf(th.key))|
    ensures Answer(c, s', th, i)
  {
    hide Action, Step, SlotAt, ChainOf, Moved, Free, InChain, Missing;
    var b := c.slotOf(th.key);
    if i == 0 {
      MissingKept(c, s, s', t, choice, b, th.key, 0, th.known);
    } else {
      var j: nat :| InChain(s, b, j, i);
      ChainsGrow(c, s, s', t, choice, b, j, i);
    }
  }

  /** What a thread has learnt stays true whatever any thread does. */
  lemma {:induction false} SearchKept(c: Config, s: State, s': State, t: nat, choice: Choice, th: Thread)
    requires Moved(c, s, s', t, choice) && SearchFacts(c, s, th)
    ensures SearchFacts(c, s', th)
  {
    hide Action, Step, SlotAt, ChainOf, Moved, Free, InChain, Missing, HeadOf, Answer;
    var b := c.slotOf(th.key);
    ChainPrefix(c, s, s', t, choice, b);
    if Expecting(th) && th.phase !in {FindHead, FindKey, FindNext, FreeLost} {
      MissingKept(c, s, s', t, choice, b, th.key, 0, th.seen);
    }
    if th.phase == FindKey || th.phase == FindNext {
      MissingKept(c, s, s', t, choice, b, th.key, th.pos, th.top);
      if th.phase == FindNext {
        CursorInChain(s, b, th.pos);
        ChainsGrow(c, s, s', t, choice, b, th.pos - 1, th.cursor);
      }
    }
    if th.phase == FreeLost { AnswerKept(c, s, s', t, choice, th, th.cursor); }
    if th.phase == MarkLinked { AnswerKept(c, s, s', t, choice, th, th.idx); }
    if th.phase == Done && th.outcome.Index? { AnswerKept(c, s, s', t, choice, th, th.outcome.i); }
  }

  lemma {:induction false} CursorInChain(s: State, b: nat, pos: nat)
    requires 0 < pos <= |ChainOf(s, b)|
    ensures InChain(s, b, pos - 1, HeadOf(ChainOf(s, b), pos))
  {
  }

  /** A nil cursor means that the whole chain has been searched. */
  lemma {:induction false} NilIsEnd(c: Config, s: State, b: nat, pos: nat)
    requires Inv(c, s) && pos <= |ChainOf(s, b)|
    ensures HeadOf(ChainOf(s, b), pos) == 0 <==> pos == 0
  {
    hide Inv, ChainOf, InChain;
    if pos > 0 {
      CursorInChain(s, b, pos);
      ChainInUse(c, s, b, pos - 1, HeadOf(ChainOf(s, b), pos));
    }
  }

  lemma {:induction false} ShorterMissing(s: State, b: nat, k: nat, from: nat, to: nat, to': nat)
    requires Missing(s, b, k, from, to) && to' <= to
    ensures Missing(s, b, k, from, to')
  {
  }

  lemma {:induction false} LearntAtKey(c: Config, s: State, t: nat, choice: Choice)
    requires Inv(c, s) && Known(c, s, t) && s.threads[t].phase == FindKey
    ensures SearchFacts(c, s, Action(c, s, s.threads[t], choice).0)
  {
    hide Inv, SlotAt, ChainOf, InChain, Missing, OwnerFacts, HeadOf;
    var th := s.threads[t];
    var b := c.slotOf(th.key);
    NilIsEnd(c, s, b, th.pos);
    if th.cursor == 0 {
      ShorterMissing(s, b, th.key, 0, th.top, th.known);
      if Expecting(th) { ShorterMissing(s, b, th.key, 0, th.top, th.seen); }
    } else {
      CursorInChain(s, b, th.pos);
    }
  }

  lemma {:induction false} LearntAtNext(c: Config, s: State, t: nat, choice: Choice)
    requires Inv(c, s) && Known(c, s, t) && s.threads[t].phase == FindNext
    ensures SearchFacts(c, s, Action(c, s, s.threads[t], choice).0)
  {
    hide Inv, SlotAt, ChainOf, InChain, OwnerFacts, HeadOf;
    var th := s.threads[t];
    var b := c.slotOf(th.key);
    CursorInChain(s, b, th.pos);
    ChainInUse(c, s, b, th.pos - 1, th.cursor);
    NextInChain(c, s, b, th.pos - 1, th.cursor);
    forall j: nat, x: nat | th.pos - 1 <= j < th.top && InChain(s, b, j, x)
      ensures SlotAt(s, x).key != th.key
    {
      if j == th.pos - 1 { SamePlace(s, b, j, x, th.cursor); }
    }
  }

  lemma {:induction false} SamePlace(s: State, b: nat, j: nat, x: nat, y: nat)
    requires InChain(s, b, j, x) && InChain(s, b, j, y)
    ensures x == y
  {
  }

  lemma {:induction false} NextInChain(c: Config, s: State, b: nat, j: nat, x: nat)
    requires Inv(c, s) && InChain(s, b, j, x)
    ensures SlotAt(s, x).next == HeadOf(ChainOf(s, b), j)
  {
    hide SlotAt, OwnerFacts, SearchFacts, StateRight, HeadRight;
    ChainInRange(c, s, b, j, x);
    assert ChainSlot(c, s, b, j);
  }

  /** Every other step that does not link. */
  lemma {:induction false} LearntElsewhere(c: Config, s: State, t: nat, choice: Choice)
    requires Inv(c, s) && Known(c, s, t) && s.threads[t].phase !in {FindKey, FindNext}
    requires !Action(c, s, s.threads[t], choice).1.Link?
    ensures SearchFacts(c, s, Action(c, s, s.threads[t], choice).0)
  {
    hide SlotAt, ChainOf, InChain, OwnerFacts, ChainSlot, SlotsDistinct, KeysDistinct, StateRight;
    var th := Action(c, s, s.threads[t], choice).0;
    SlotInRange(c, th.key);
    assert HeadRight(s, c.slotOf(th.key));
  }

  lemma {:induction false} SlotInRange(c: Config, k: nat)
    requires c.Ok()
    ensures c.slotOf(k) < c.numSlots
  {
  }

  lemma {:induction false} LinkAnswers(c: Config, s: State, s': State, t: nat, choice: Choice)
    requires Known(c, s, t) && Moved(c, s, s', t, choice) && Action(c, s, s.threads[t], choice).1.Link?
    ensures SearchFacts(c, s', Action(c, s, s.threads[t], choice).0)
  {
    hide Step, SlotAt, InChain, Free;
    var th := s.threads[t];
    var b := c.slotOf(th.key);
    var e := Action(c, s, th, choice).1;
    LinkPhase(c, s, th, choice);
    ChainPrefix(c, s, s', t, choice, b);
    MissingKept(c, s, s', t, choice, b, th.key, 0, th.seen);
    JustLinked(s, s', b, th.idx);
    LinkedSlot(c, s, s', t, choice, b, th.idx);
  }

  lemma {:induction false} LinkPhase(c: Config, s: State, th: Thread, choice: Choice)
    ensures var (th', e) := Action(c, s, th, choice);
            e.Link? ==> th.phase == LinkCas && e == Link(c.slotOf(th.key), th.idx) &&
                        th' == if c.slotOf(th.key) == th.idx then Finish(th, Index(th.idx))
                            else th.(phase := MarkLinked)
  {
    hide SlotAt, ChainOf;
  }

  lemma {:induction false} JustLinked(s: State, s': State, b: nat, x: nat)
    requires ChainOf(s', b) == ChainOf(s, b) + [x]
    ensures InChain(s', b, |ChainOf(s, b)|, x)
  {
  }

  lemma {:induction false} OwnSearch(c: Config, s: State, s': State, t: nat, choice: Choice)
    requires Inv(c, s) && Known(c, s, t) && Moved(c, s, s', t, choice)
    ensures SearchFacts(c, s', s'.threads[t])
  {
    hide Inv, Moved, Action, SearchFacts, SlotAt, ChainOf, OwnerFacts;
    MovedThreads(c, s, s', t, choice);
    var th := Action(c, s, s.threads[t], choice).0;
    if Action(c, s, s.threads[t], choice).1.Link? {
      LinkAnswers(c, s, s', t, choice);
    } else {
      if s.threads[t].phase == FindKey {
        LearntAtKey(c, s, t, choice);
      } else if s.threads[t].phase == FindNext {
        LearntAtNext(c, s, t, choice);
      } else {
        LearntElsewhere(c, s, t, choice);
      }
      SearchKept(c, s, s', t, choice, th);
    }
  }

  // ---- Every run ----

  lemma {:induction false} StepKeepsChains(c: Config, s: State, t: nat, choice: Choice)
    requires Inv(c, s) && t < |s.threads|
    ensures var s' := Step(c, s, t, choice);
            && Shape(c, s')
            && (forall b: nat, j: nat :: b < c.numSlots ==> ChainSlot(c, s', b, j))
            && (forall b: nat :: b < c.numSlots ==> HeadRight(s', b))
            && SlotsDistinct(s') && KeysDistinct(s')
  {
    hide Step, Action, ChainSlot, HeadRight, SlotsDistinct, KeysDistinct, OwnerFacts, SearchFacts, StateRight, Moved,
         Shape;
    var s' := Step(c, s, t, choice);
    StepMoves(c, s, t, choice);
    ShapeKept(c, s, s', t, choice);
    forall b: nat, j: nat | b < c.numSlots
      ensures ChainSlot(c, s', b, j)
    {
      ChainSlotKept(c, s, s', t, choice, b, j);
    }
    forall b: nat | b < c.numSlots
      ensures HeadRight(s', b)
    {
      HeadKept(c, s, s', t, choice, b);
    }
    SlotsStayDistinct(c, s, s', t, choice);
    KeysStayDistinct(c, s, s', t, choice);
  }

  lemma {:induction false} StepKeepsThreads(c: Config, s: State, t: nat, choice: Choice)
    requires Inv(c, s) && t < |s.threads|
    ensures var s' := Step(c, s, t, choice);
            && (forall u: nat :: u < |s'.threads| ==> OwnerFacts(c, s', s'.threads[u]))
            && (forall u: nat :: u < |s'.threads| ==> SearchFacts(c, s', s'.threads[u]))
            && (forall u: nat, v: nat ::
                  u < |s'.threads| && v < |s'.threads| && SameSlot(s'.threads[u], s'.threads[v]) ==> u == v)
            && (forall x: nat :: 0 < x < c.numSlots ==> StateRight(c, s', x))
  {
    hide Step, Action, ChainSlot, HeadRight, SlotsDistinct, KeysDistinct, OwnerFacts, SearchFacts, StateRight, Moved,
         Shape, SameSlot;
    var s' := Step(c, s, t, choice);
    StepMoves(c, s, t, choice);
    MovedThreads(c, s, s', t, choice);
    assert Known(c, s, t);
    PurposeKnown(c, s, t);
    OwnOwns(c, s, s', t, choice);
    OwnSearch(c, s, s', t, choice);
    forall u: nat | u < |s.threads| && u != t
      ensures OwnerFacts(c, s', s'.threads[u]) && SearchFacts(c, s', s'.threads[u])
      ensures !SameSlot(s'.threads[t], s'.threads[u]) && !SameSlot(s'.threads[u], s'.threads[t])
    {
      OthersOwn(c, s, s', t, choice, u);
      SearchKept(c, s, s', t, choice, s.threads[u]);
      HoldersStayDistinct(c, s, s', t, choice, u);
      SameSlotCommutes(s'.threads[t], s'.threads[u]);
    }
    forall x: nat | 0 < x < c.numSlots
      ensures StateRight(c, s', x)
    {
      StateKept(c, s, s', t, choice, x);
    }
  }

  lemma {:induction false} SameSlotCommutes(a: Thread, b: Thread)
    ensures SameSlot(a, b) <==> SameSlot(b, a)
  {
  }

  /** Every step of every thread keeps the invariant. */
  lemma {:induction false} StepKeepsInv(c: Config, s: State, t: nat, choice: Choice)
    requires Inv(c, s) && t < |s.threads|
    ensures Inv(c, Step(c, s, t, choice))
  {
    hide Step, Action, ChainSlot, HeadRight, SlotsDistinct, KeysDistinct, OwnerFacts, SearchFacts, StateRight, Shape,
         SameSlot;
    StepKeepsChains(c, s, t, choice);
    StepKeepsThreads(c, s, t, choice);
  }

  lemma {:induction false} InitInv(c: Config, s: State)
    requires c.Ok() && Init(c, s)
    ensures Inv(c, s)
  {
  }

  lemma {:induction false} RunKeepsInv(c: Config, run: seq<State>, n: nat)
    requires c.Ok() && Reachable(c, run) && n < |run|
    ensures Inv(c, run[n])
  {
    hide Inv, Step;
    if n == 0 {
      InitInv(c, run[0]);
    } else {
      RunKeepsInv(c, run, n - 1);
      assert Next(c, run[n - 1], run[n]);
      var t: nat, choice :| t < |run[n - 1].threads| && run[n] == Step(c, run[n - 1], t, choice);
      StepKeepsInv(c, run[n - 1], t, choice);
    }
  }

  /** Slot x can be reached from the head of slot b by following n links. */
  ghost predicate Reaches(s: State, b: nat, x: nat, n: nat)
    decreases n
  {
    if n == 0 then x != 0 && SlotAt(s, b).head == x
    else exists y: nat :: Reaches(s, b, y, n - 1) && x != 0 && SlotAt(s, y).next == x
  }

  /** Following the links passes through the chain from its end, so it ends after as many steps as there are slots. */
  lemma {:induction false} LinksFollowChain(c: Config, s: State, b: nat, x: nat, n: nat)
    requires Inv(c, s) && b < c.numSlots && Reaches(s, b, x, n)
    ensures n < |ChainOf(s, b)| && InChain(s, b, |ChainOf(s, b)| - 1 - n, x)
    decreases n
  {
    hide SlotAt, ChainOf, InChain, OwnerFacts, SearchFacts, StateRight, SlotsDistinct, KeysDistinct, ChainSlot,
         HeadRight, HeadOf;
    var m := |ChainOf(s, b)|;
    if n == 0 {
      assert HeadRight(s, b);
      HeadIsLast(s, b);
      NilIsEnd(c, s, b, m);
      CursorInChain(s, b, m);
    } else {
      var y: nat :| Reaches(s, b, y, n - 1) && x != 0 && SlotAt(s, y).next == x;
      LinksFollowChain(c, s, b, y, n - 1);
      NextInChain(c, s, b, m - n, y);
      NilIsEnd(c, s, b, m - n);
      CursorInChain(s, b, m - n);
    }
  }

  lemma {:induction false} HeadIsLast(s: State, b: nat)
    requires HeadRight(s, b)
    ensures SlotAt(s, b).head == HeadOf(ChainOf(s, b), |ChainOf(s, b)|)
  {
  }

  /** In every state of every run: no slot is passed twice, reachable slots are in use, hold keys of their chain, and no
      two hold the same key. */
  lemma {:induction false} ChainsAreSound(c: Config, run: seq<State>, r: nat, b: nat, x: nat, n: nat, y: nat, m: nat)
    requires c.Ok() && Reachable(c, run) && r < |run| && b < c.numSlots
    requires Reaches(run[r], b, x, n) && Reaches(run[r], b, y, m)
    ensures SlotAt(run[r], x).state != Empty && c.slotOf(SlotAt(run[r], x).key) == b
    ensures x == y ==> n == m
    ensures SlotAt(run[r], x).key == SlotAt(run[r], y).key ==> x == y
  {
    hide SlotAt, ChainOf, InChain, OwnerFacts, SearchFacts, StateRight, ChainSlot, HeadRight, Reaches, Reachable;
    var s := run[r];
    RunKeepsInv(c, run, r);
    LinksFollowChain(c, s, b, x, n);
    LinksFollowChain(c, s, b, y, m);
    ChainInUse(c, s, b, |ChainOf(s, b)| - 1 - n, x);
    if SlotAt(s, x).key == SlotAt(s, y).key {
      SamePlaceAt(s, b, |ChainOf(s, b)| - 1 - n, x, |ChainOf(s, b)| - 1 - m, y);
    }
  }

  lemma {:induction false} SamePlaceAt(s: State, b: nat, j: nat, x: nat, j': nat, y: nat)
    requires InChain(s, b, j, x) && InChain(s, b, j', y)
    ensures j == j' ==> x == y
  {
  }

  /** In every state of every run a slot under construction, other than the reserved one, has exactly one owner. */
  lemma {:induction false} OneOwner(c: Config, run: seq<State>, r: nat, x: nat)
    requires c.Ok() && Reachable(c, run) && r < |run| && 0 < x < c.numSlots && SlotAt(run[r], x).state == Constructing
    ensures exists t: nat :: t < |run[r].threads| && Holds(run[r].threads[t]) && run[r].threads[t].idx == x &&
              forall u: nat :: u < |run[r].threads| && Holds(run[r].threads[u]) && run[r].threads[u].idx == x ==> u == t
  {
    hide SlotAt, ChainOf, InChain, OwnerFacts, SearchFacts, ChainSlot, HeadRight, Reachable, KeysDistinct,
         SlotsDistinct;
    var s := run[r];
    RunKeepsInv(c, run, r);
    assert StateRight(c, s, x);
    var t: nat :| t < |s.threads| && Holds(s.threads[t]) && s.threads[t].idx == x;
    forall u: nat | u < |s.threads| && Holds(s.threads[u]) && s.threads[u].idx == x
      ensures u == t
    {
      assert SameSlot(s.threads[t], s.threads[u]);
    }
  }

  lemma {:induction false} ChainsOnlyGrow(c: Config, run: seq<State>, m: nat, n: nat, b: nat, j: nat, x: nat)
    requires c.Ok() && Reachable(c, run) && m <= n < |run| && InChain(run[m], b, j, x)
    ensures InChain(run[n], b, j, x) && SlotAt(run[n], x).key == SlotAt(run[m], x).key
    decreases n
  {
    hide Inv, Step, SlotAt, InChain;
    if m < n {
      ChainsOnlyGrow(c, run, m, n - 1, b, j, x);
      RunKeepsInv(c, run, n - 1);
      assert Next(c, run[n - 1], run[n]);
      var t: nat, choice :| t < |run[n - 1].threads| && run[n] == Step(c, run[n - 1], t, choice);
      StepMoves(c, run[n - 1], t, choice);
      ChainsGrow(c, run[n - 1], run[n], t, choice, b, j, x);
    }
  }

  /** An operation whose record says that the chain was already as long when it began returns the same index. */
  lemma {:induction false} SameIndex(c: Config, run: seq<State>, m: nat, u: nat, n: nat, t: nat)
    requires c.Ok() && Reachable(c, run) && m <= n < |run| && u < |run[m].threads| && t < |run[n].threads|
    requires run[m].threads[u].phase == Done && run[m].threads[u].outcome.Index? && run[m].threads[u].outcome.i != 0
    requires run[n].threads[t].phase == Done && run[n].threads[t].outcome.Index? &&
             run[n].threads[t].key == run[m].threads[u].key
    requires |ChainOf(run[m], c.slotOf(run[m].threads[u].key))| <= run[n].threads[t].known
    ensures run[n].threads[t].outcome.i == run[m].threads[u].outcome.i
  {
    hide SlotAt, OwnerFacts, ChainSlot, HeadRight, Reachable, StateRight, SlotsDistinct, Expecting, Shape;
    var first, later := run[m].threads[u], run[n].threads[t];
    var k := first.key;
    RunKeepsInv(c, run, m);
    RunKeepsInv(c, run, n);
    assert SearchFacts(c, run[m], first) && SearchFacts(c, run[n], later);
    var j: nat :| InChain(run[m], c.slotOf(k), j, first.outcome.i);
    ChainsOnlyGrow(c, run, m, n, c.slotOf(k), j, first.outcome.i);
    if later.outcome.i != 0 {
      var j': nat :| InChain(run[n], c.slotOf(k), j', later.outcome.i);
      SamePlaceAt(run[n], c.slotOf(k), j, first.outcome.i, j', later.outcome.i);
    }
  }

  /** A thread records at its beginning how long the chain of its key is, and keeps the record until it is done. */
  lemma {:induction false} RecordKept(c: Config, s: State, t: nat, choice: Choice, u: nat)
    requires Inv(c, s) && t < |s.threads| && u < |s.threads|
    ensures var s' := Step(c, s, t, choice);
            && |s'.threads| == |s.threads|
            && (s.threads[u].phase == Done && s'.threads[u].phase != Done ==>
                s'.threads[u].known == |ChainOf(s, c.slotOf(s'.threads[u].key))|)
            && (s.threads[u].phase != Done ==>
                   s'.threads[u].known == s.threads[u].known && s'.threads[u].key == s.threads[u].key)
  {
    hide Inv, Step, SlotAt, ChainOf;
    StepMoves(c, s, t, choice);
    MovedThreads(c, s, Step(c, s, t, choice), t, choice);
  }

  lemma {:induction false} RecordOfOperation(c: Config, run: seq<State>, b: nat, n: nat, t: nat)
    requires c.Ok() && Reachable(c, run) && b < n < |run| && t < |run[b].threads|
    requires run[b].threads[t].phase == Done
    requires forall r :: b < r < n ==> t < |run[r].threads| && run[r].threads[t].phase != Done
    requires n == b + 1 ==> t < |run[n].threads| && run[n].threads[t].phase != Done
    ensures t < |run[n].threads| && run[n].threads[t].known == |ChainOf(run[b], c.slotOf(run[n].threads[t].key))|
    decreases n
  {
    hide Inv, Step, ChainOf;
    RunKeepsInv(c, run, n - 1);
    assert Next(c, run[n - 1], run[n]);
    var u: nat, choice :| u < |run[n - 1].threads| && run[n] == Step(c, run[n - 1], u, choice);
    RecordKept(c, run[n - 1], u, choice, t);
    if n > b + 1 { RecordOfOperation(c, run, b, n - 1, t); }
  }

  lemma {:induction false} ChainLengths(c: Config, run: seq<State>, m: nat, n: nat, b: nat)
    requires c.Ok() && Reachable(c, run) && m <= n < |run|
    ensures |ChainOf(run[m], b)| <= |ChainOf(run[n], b)|
    decreases n
  {
    hide Inv, Step, ChainOf;
    if m < n {
      ChainLengths(c, run, m, n - 1, b);
      RunKeepsInv(c, run, n - 1);
      assert Next(c, run[n - 1], run[n]);
      var t: nat, choice :| t < |run[n - 1].threads| && run[n] == Step(c, run[n - 1], t, choice);
      StepMoves(c, run[n - 1], t, choice);
      ChainPrefix(c, run[n - 1], run[n], t, choice, b);
    }
  }

  /** Once an operation has returned an index for a key (state m), every operation on that key that begins later
      (state b) and ends without an exception (state n) returns the same index. */
  lemma {:induction false} ReturnedIndexIsStable(c: Config, run: seq<State>, m: nat, u: nat, b: nat, n: nat, t: nat)
    requires c.Ok() && Reachable(c, run) && m <= b && b + 1 < n < |run| && u < |run[m].threads| && t < |run[b].threads|
    requires run[m].threads[u].phase == Done && run[m].threads[u].outcome.Index? && run[m].threads[u].outcome.i != 0
    requires run[b].threads[t].phase == Done
    requires forall r :: b < r < n ==> t < |run[r].threads| && run[r].threads[t].phase != Done
    requires t < |run[n].threads| && run[n].threads[t].phase == Done && run[n].threads[t].outcome.Index?
    requires run[n].threads[t].key == run[m].threads[u].key
    ensures run[n].threads[t].outcome.i == run[m].threads[u].outcome.i
  {
    hide Inv, Step, ChainOf, Reachable;
    RecordOfOperation(c, run, b, n, t);
    ChainLengths(c, run, m, b, c.slotOf(run[m].threads[u].key));
    SameIndex(c, run, m, u, n, t);
  }
}
