/** How many steps an operation of the insert-only map takes: a find no more than the chain is long, whatever other
    threads do, and an insertion starts over only if the word it wants to exchange has changed in the meantime. */
module AtomicUnorderedMapProgress {
  import opened AtomicUnorderedMap
  import opened AtomicUnorderedMapSafety
  import opened AtomicUnorderedMapOutcomes

  // ---- Counting ----

  /** Thread t does something from state m to the next. */
  predicate MovesAt(run: seq<State>, m: nat, t: nat) {
    m + 1 < |run| && t < |run[m].threads| && t < |run[m + 1].threads| && run[m].threads[t] != run[m + 1].threads[t]
  }

  /** How often it does from state m to state n. */
  function Moves(run: seq<State>, m: nat, n: nat, t: nat): nat
    requires m <= n
  {
    if m == n then 0 else Moves(run, m, n - 1, t) + if MovesAt(run, n - 1, t) then 1 else 0
  }

  /** The word of slot i, its head and its state, changes. */
  predicate WordChanges(s: State, s': State, i: nat) {
    SlotAt(s, i).head != SlotAt(s', i).head || SlotAt(s, i).state != SlotAt(s', i).state
  }

  /** How often it does from state m to state n. */
  function Changes(run: seq<State>, m: nat, n: nat, i: nat): nat
    requires m <= n < |run|
  {
    if m == n then 0 else Changes(run, m, n - 1, i) + if WordChanges(run[n - 1], run[n], i) then 1 else 0
  }

  // ---- What is left to do ----

  /** The word that the thread wants to exchange is not the one it has loaded. */
  predicate Outdated(c: Config, s: State, th: Thread) {
    var word := SlotAt(s, c.slotOf(th.key));
    && th.purpose != PlainFind && th.phase !in {Done, LoadPrev, FreeThrown, MarkLinked, FreeLost}
    && (word.head != th.prevHead || word.state != th.prevState)
  }

  /** What another search costs. */
  function Again(c: Config): nat {
    2 * c.numSlots + 5
  }

  function TriesLeft(th: Thread): nat {
    if th.tries < MAX_ALLOCATION_TRIES then 2 * (MAX_ALLOCATION_TRIES - th.tries) else 0
  }

  function AfterSearch(purpose: Purpose): nat {
    match purpose
    case PlainFind => 0
    case FirstFind => 2 * MAX_ALLOCATION_TRIES + 9
    case RetryFind => 5
  }

  /** The steps a thread still has to take if nobody interferes. */
  function Cost(c: Config, th: Thread): nat {
    match th.phase
    case LoadPrev => 2 * c.numSlots + 4 + AfterSearch(FirstFind)
    case FindHead => 2 * c.numSlots + 3 + AfterSearch(th.purpose)
    case FindKey => 2 * th.pos + 2 + AfterSearch(th.purpose)
    case FindNext => 2 * th.pos + 1 + AfterSearch(th.purpose)
    case AllocLoad => TriesLeft(th) + 9
    case AllocCas => TriesLeft(th) + 8
    case WriteKey => 7
    case CallFunc => 6
    case WriteNext => 5
    case LinkCas => 4
    case Done => 0
    case _ => 1
  }

  function Due(c: Config, s: State, th: Thread): nat {
    Cost(c, th) + if Outdated(c, s, th) then Again(c) else 0
  }

  // ---- A chain is not longer than the table ----

  lemma {:induction false} DistinctFit(chain: seq<nat>, n: nat)
    requires forall i: nat, j: nat :: i < j < |chain| ==> chain[i] != chain[j]
    requires forall i: nat :: i < |chain| ==> chain[i] < n
    ensures |chain| <= n
    decreases n
  {
    if |chain| > 0 {
      assert chain[0] < n;
      if i: nat :| i < |chain| && chain[i] == n - 1 {
        var rest := chain[..i] + chain[i + 1..];
        forall j: nat | j < |rest|
          ensures rest[j] < n - 1 && forall k: nat :: j < k < |rest| ==> rest[j] != rest[k]
        {
          assert rest[j] == chain[if j < i then j else j + 1];
          assert forall k: nat :: j < k < |rest| ==> rest[k] == chain[if k < i then k else k + 1];
        }
        DistinctFit(rest, n - 1);
      } else {
        DistinctFit(chain, n - 1);
      }
    }
  }

  lemma {:induction false} ChainFits(c: Config, s: State, b: nat)
    requires Inv(c, s) && b < c.numSlots
    ensures |ChainOf(s, b)| <= c.numSlots
  {
    hide SlotAt, OwnerFacts, SearchFacts, StateRight, HeadRight, KeysDistinct, Shape;
    var chain := ChainOf(s, b);
    forall i: nat | i < |chain|
      ensures chain[i] < c.numSlots
    {
      assert ChainSlot(c, s, b, i);
    }
    forall i: nat, j: nat | i < j < |chain|
      ensures chain[i] != chain[j]
    {
      assert InChain(s, b, i, chain[i]) && InChain(s, b, j, chain[j]);
    }
    DistinctFit(chain, c.numSlots);
  }

  // ---- One step ----

  /** What a change of the word may cost a thread; a find does not care. */
  function Penalty(c: Config, th: Thread): nat {
    if th.purpose == PlainFind then 0 else Again(c)
  }

  /** A step of another thread adds to what is due only if it changes the word. */
  lemma {:induction false} OthersStep(c: Config, s: State, s': State, th: Thread)
    ensures Due(c, s', th) <= Due(c, s, th) + if WordChanges(s, s', c.slotOf(th.key)) then Penalty(c, th) else 0
  {
    hide SlotAt, Cost;
  }

  /** A thread that searches. */
  lemma {:induction false} SearchPays(c: Config, s: State, t: nat, choice: Choice)
    requires Known(c, s, t) && s.threads[t].phase in {LoadPrev, FindHead, FindKey, FindNext}
    requires |ChainOf(s, c.slotOf(s.threads[t].key))| <= c.numSlots
    ensures var th := s.threads[t]; var th' := Action(c, s, th, choice).0;
            th'.key == th.key && th' != th && Due(c, s, th') < Due(c, s, th)
  {
    hide SlotAt, ChainOf, HeadOf, OwnerFacts, Shape, Missing, Answer;
  }

  /** A thread that allocates, constructs or links; only a failed exchange of the word makes it start over. */
  lemma {:induction false} InsertPays(c: Config, s: State, t: nat, choice: Choice)
    requires Known(c, s, t) && s.threads[t].phase !in {LoadPrev, FindHead, FindKey, FindNext, Done}
    requires s.threads[t].phase == AllocCas ==> s.threads[t].tries < MAX_ALLOCATION_TRIES
    ensures var th := s.threads[t]; var th' := Action(c, s, th, choice).0;
            th'.key == th.key && th' != th && Due(c, s, th') < Due(c, s, th)
  {
    hide SlotAt, ChainOf, OwnerFacts, Shape, Missing, Answer;
  }

  // ---- Runs ----

  /** What has been done and what is due is no more than what was due, and one search for each change of the word. */
  lemma {:induction false} MovesArePaid(c: Config, run: seq<State>, b: nat, n: nat, t: nat)
    requires c.Ok() && Reachable(c, run) && Running(run, b, n, t) && b + 1 < |run| && n < |run|
    requires t < |run[b + 1].threads| && run[b + 1].threads[t].phase != Done
    ensures t < |run[n].threads| && run[n].threads[t].key == run[b + 1].threads[t].key
    ensures run[n].threads[t].purpose == PlainFind <==> run[b + 1].threads[t].purpose == PlainFind
    ensures var th := run[b + 1].threads[t];
            Moves(run, b + 1, n, t) + Due(c, run[n], run[n].threads[t])
              <= Due(c, run[b + 1], th) + Penalty(c, th) * Changes(run, b + 1, n, c.slotOf(th.key))
    decreases n
  {
    hide Inv, Step, Action, Due, WordChanges, Again, Record;
    if n > b + 1 {
      MovesArePaid(c, run, b, n - 1, t);
      assert Next(c, run[n - 1], run[n]);
      var u: nat, choice :| u < |run[n - 1].threads| && run[n] == Step(c, run[n - 1], u, choice);
      RunKeepsInv(c, run, n - 1);
      StepMoves(c, run[n - 1], u, choice);
      MovedThreads(c, run[n - 1], run[n], u, choice);
      var th := run[n - 1].threads[t];
      OthersStep(c, run[n - 1], run[n], run[n].threads[t]);
      if u == t { OwnMovePays(c, run, b, n - 1, t, choice); }
      OneMoreChange(Penalty(c, th), Changes(run, b + 1, n - 1, c.slotOf(th.key)));
    }
  }

  lemma {:induction false} OneMoreChange(again: nat, changes: nat)
    ensures again * (changes + 1) == again * changes + again
  {
  }

  lemma {:induction false} OwnMovePays(c: Config, run: seq<State>, b: nat, n: nat, t: nat, choice: Choice)
    requires c.Ok() && Reachable(c, run) && Running(run, b, n + 1, t) && b < n < |run| && t < |run[n].threads|
    requires Inv(c, run[n])
    ensures var th := run[n].threads[t]; var th' := Action(c, run[n], th, choice).0;
            th'.key == th.key && th' != th && (th'.purpose == PlainFind <==> th.purpose == PlainFind) &&
            Due(c, run[n], th') < Due(c, run[n], th)
  {
    hide Inv, Step, Action, Due, RefusedUpTo, Loaded;
    NowKnown(c, run[n], t);
    SameKind(c, run[n], t, choice);
    var th := run[n].threads[t];
    if th.phase in {LoadPrev, FindHead, FindKey, FindNext} {
      ChainFits(c, run[n], c.slotOf(th.key));
      SearchPays(c, run[n], t, choice);
    } else {
      if th.phase == AllocCas { TriesAreLeft(c, run, b, n, t); }
      InsertPays(c, run[n], t, choice);
    }
  }

  lemma {:induction false} TriesAreLeft(c: Config, run: seq<State>, b: nat, n: nat, t: nat)
    requires c.Ok() && Reachable(c, run) && Running(run, b, n + 1, t) && b < n < |run| && t < |run[n].threads|
    requires run[n].threads[t].phase == AllocCas
    ensures run[n].threads[t].tries < MAX_ALLOCATION_TRIES
  {
    hide Inv, Step, Action, RefusedUpTo, Loaded, Reachable;
    if n == b + 1 { FirstRecord(c, run, b, t); } else { OperationRecord(c, run, b, n, t); }
  }

  lemma {:induction false} MovesFromStart(run: seq<State>, b: nat, n: nat, t: nat)
    requires b < n
    ensures Moves(run, b, n, t) <= Moves(run, b + 1, n, t) + 1
    decreases n
  {
    if n > b + 1 { MovesFromStart(run, b, n - 1, t); }
  }

  /** A find takes no more steps than twice the number of slots and four more, whatever other threads do. */
  lemma {:induction false} FindIsWaitFree(c: Config, run: seq<State>, b: nat, n: nat, t: nat, choice: Choice)
    requires c.Ok() && Reachable(c, run) && Running(run, b, n, t) && b + 1 < n < |run|
    requires StepOf(c, run, b, t, choice) && choice.find
    ensures Moves(run, b, n, t) <= 2 * c.numSlots + 4
  {
    hide Reachable, Inv, Step;
    RunKeepsInv(c, run, b);
    StepMoves(c, run[b], t, choice);
    MovedThreads(c, run[b], run[b + 1], t, choice);
    MovesArePaid(c, run, b, n, t);
    MovesFromStart(run, b, n, t);
  }

  /** An insertion takes a bounded number of steps and one more search for each time that somebody changes the word of
      its slot, which is how any insertion gets on. */
  lemma {:induction false} InsertIsLockFree(c: Config, run: seq<State>, b: nat, n: nat, t: nat, choice: Choice)
    requires c.Ok() && Reachable(c, run) && Running(run, b, n, t) && b + 1 < n < |run|
    requires StepOf(c, run, b, t, choice) && !choice.find
    ensures Moves(run, b, n, t)
         <= 2 * c.numSlots + 2 * MAX_ALLOCATION_TRIES + 14 + Again(c) * Changes(run, b + 1, n, c.slotOf(choice.key))
  {
    hide Reachable, Inv, Step;
    RunKeepsInv(c, run, b);
    StepMoves(c, run[b], t, choice);
    MovedThreads(c, run[b], run[b + 1], t, choice);
    MovesArePaid(c, run, b, n, t);
    MovesFromStart(run, b, n, t);
  }

  /** Whoever changes a word allocates, links or gives up a slot by that step, and then has another phase. */
  lemma {:induction false} ChangeIsProgress(c: Config, run: seq<State>, n: nat, t: nat, choice: Choice, i: nat)
    requires c.Ok() && Reachable(c, run) && StepOf(c, run, n, t, choice) && WordChanges(run[n], run[n + 1], i)
    ensures run[n].threads[t].phase in {AllocCas, FreeThrown, LinkCas, MarkLinked, FreeLost}
    ensures t < |run[n + 1].threads| && run[n + 1].threads[t].phase in {WriteKey, MarkLinked, Done}
  {
    hide Reachable, Inv;
    RunKeepsInv(c, run, n);
    StepMoves(c, run[n], t, choice);
    MovedThreads(c, run[n], run[n + 1], t, choice);
    WordPhases(c, run[n], t, choice);
  }

  lemma {:induction false} WordPhases(c: Config, s: State, t: nat, choice: Choice)
    requires t < |s.threads|
    ensures var th := s.threads[t]; var (th', e) := Action(c, s, th, choice);
            e.SetState? || e.Link? ==>
              th.phase in {AllocCas, FreeThrown, LinkCas, MarkLinked, FreeLost} &&
                  th'.phase in {WriteKey, MarkLinked, Done}
  {
    hide SlotAt, ChainOf;
  }

  /** A step of an operation moves its thread, so that no step goes uncounted. */
  lemma {:induction false} EveryStepCounts(c: Config, run: seq<State>, b: nat, n: nat, t: nat, choice: Choice)
    requires c.Ok() && Reachable(c, run) && Running(run, b, n + 1, t) && b < n < |run| && StepOf(c, run, n, t, choice)
    ensures MovesAt(run, n, t)
  {
    hide Reachable, Inv, Step, Action;
    RunKeepsInv(c, run, n);
    StepMoves(c, run[n], t, choice);
    MovedThreads(c, run[n], run[n + 1], t, choice);
    OwnMovePays(c, run, b, n, t, choice);
  }
}
