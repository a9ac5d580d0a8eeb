/** A run in which a remove returns false although a node of its key is in the bottom layer all the time: another thread
    has linked the node there but not completed it. So the keys in the bottom layer are not what add and remove agree
    on. */
module SkipListWitness {
  import opened Wrappers
  import opened SkipList
  import opened SkipListLayers
  import opened SkipListSafety
  import opened SkipListMembers
  import opened SkipListHistory

  const KEY := 5
  const ADDING := Choice(Add, KEY, 1, false)
  const REMOVING := Choice(Remove, KEY, 1, false)

  /** The null node, the head at one layer with its link and lock, and the node of the key once there is one. */
  function Memory(link: nat, lock: Option<nat>, node: seq<Node>): seq<Node> {
    [Node(0, false, 0, [], false, false, None, 0, 0), Node(0, true, 1, [link], false, false, lock, 1, 1)] + node
  }

  function NewNodeOf(links: nat): Node {
    Node(KEY, false, 1, [NIL], false, false, None, links, 1)
  }

  function Both(nodes: seq<Node>, adder: Thread, remover: Thread): State {
    State(nodes, 1, [adder, remover])
  }

  function Idle(): Thread {
    Begin(Choice(Add, 0, 0, false)).(phase := Done)
  }

  /** A thread at the beginning of its search, and at the end of it. */
  function Started(choice: Choice, phase: Phase): Thread {
    Begin(choice).(phase := phase)
  }

  function AtHead(choice: Choice): Thread {
    Begin(choice).(phase := ReadSkip, pred := 1, preds := [NIL], succs := [NIL])
  }

  function Adder(phase: Phase, held: seq<nat>, target: nat): Thread {
    AtHead(ADDING).(phase := phase, preds := [1], height := 1, held := held, target := target)
  }

  function Remover(phase: Phase): Thread {
    AtHead(REMOVING).(phase := phase, preds := [1], succs := [2], found := 1, foundNode := 2)
  }

  /** The states of the run: the adder goes first and stops before completing its node. */
  function StateOf(n: nat): State {
    match n
    case 0 => Both(Memory(NIL, None, []), Idle(), Idle())
    case 1 => Both(Memory(NIL, None, []), Started(ADDING, LoadHeight), Idle())
    case 2 => Both(Memory(NIL, None, []), Started(ADDING, LoadHead), Idle())
    case 3 => Both(Memory(NIL, None, []), AtHead(ADDING), Idle())
    case 4 => Both(Memory(NIL, None, []), Adder(LockPred, [], NIL), Idle())
    case 5 => Both(Memory(NIL, Some(0), []), Adder(CheckPred, [1], NIL), Idle())
    case 6 => Both(Memory(NIL, Some(0), []), Adder(CheckLink, [1], NIL), Idle())
    case 7 => Both(Memory(NIL, Some(0), []), Adder(CheckSucc, [1], NIL), Idle())
    case 8 => Both(Memory(NIL, Some(0), []), Adder(CreateNode, [1], NIL), Idle())
    case 9 => Both(Memory(NIL, Some(0), [NewNodeOf(0)]), Adder(SetOwn, [1], 2), Idle())
    case 10 => Both(Memory(NIL, Some(0), [NewNodeOf(0)]), Adder(SetPred, [1], 2), Idle())
    case 11 => Both(Memory(2, Some(0), [NewNodeOf(1)]), Adder(SetLinked, [1], 2), Idle())
    case 12 => Both(Memory(2, Some(0), [NewNodeOf(1)]), Adder(SetLinked, [1], 2), Started(REMOVING, LoadHeight))
    case 13 => Both(Memory(2, Some(0), [NewNodeOf(1)]), Adder(SetLinked, [1], 2), Started(REMOVING, LoadHead))
    case 14 => Both(Memory(2, Some(0), [NewNodeOf(1)]), Adder(SetLinked, [1], 2), AtHead(REMOVING))
    case 15 => Both(Memory(2, Some(0), [NewNodeOf(1)]), Adder(SetLinked, [1], 2), Remover(RemoveCheckLinked))
    case _ => Both(Memory(2, Some(0), [NewNodeOf(1)]), Adder(SetLinked, [1], 2), Remover(Done))
  }

  /** A step of the adder, or of the remover, from what it does. */
  lemma {:induction false} AdderStep(nodes: seq<Node>, a: Thread, b: Thread, choice: Choice, a': Thread, e: Effect,
                                     nodes': seq<Node>)
    requires Action(Both(nodes, a, b), 0, a, choice) == (a', e)
    requires Apply(Both(nodes, a, b), 0, e) == Both(nodes', a, b)
    ensures Step(Both(nodes, a, b), 0, choice) == Both(nodes', a', b)
  {
    hide Action, Apply;
    assert [a, b][0 := a'] == [a', b];
  }

  lemma {:induction false} RemoverStep(nodes: seq<Node>, a: Thread, b: Thread, choice: Choice, b': Thread)
    requires Action(Both(nodes, a, b), 1, b, choice) == (b', NoEffect)
    ensures Step(Both(nodes, a, b), 1, choice) == Both(nodes, a, b')
  {
    hide Action;
    assert [a, b][1 := b'] == [a, b'];
  }

  lemma {:induction false} Step0()
    ensures Step(StateOf(0), 0, ADDING) == StateOf(1)
  {
    var nodes, a, b := Memory(NIL, None, []), Idle(), Idle();
    assert Action(Both(nodes, a, b), 0, a, ADDING) == (Started(ADDING, LoadHeight), NoEffect);
    AdderStep(nodes, a, b, ADDING, Started(ADDING, LoadHeight), NoEffect,
              Memory(NIL, None, []));
  }

  lemma {:induction false} Step1()
    ensures Step(StateOf(1), 0, ADDING) == StateOf(2)
  {
    var nodes, a, b := Memory(NIL, None, []), Started(ADDING, LoadHeight), Idle();
    assert Action(Both(nodes, a, b), 0, a, ADDING) == (Started(ADDING, LoadHead), NoEffect);
    AdderStep(nodes, a, b, ADDING, Started(ADDING, LoadHead), NoEffect,
              Memory(NIL, None, []));
  }

  lemma {:induction false} Step2()
    ensures Step(StateOf(2), 0, ADDING) == StateOf(3)
  {
    var nodes, a, b := Memory(NIL, None, []), Started(ADDING, LoadHead), Idle();
    var th := Action(Both(nodes, a, b), 0, a, ADDING).0;
    assert th.preds == [NIL] && th.succs == [NIL];
    assert Action(Both(nodes, a, b), 0, a, ADDING) == (AtHead(ADDING), NoEffect);
    AdderStep(nodes, a, b, ADDING, AtHead(ADDING), NoEffect,
              Memory(NIL, None, []));
  }

  lemma {:induction false} Step3()
    ensures Step(StateOf(3), 0, ADDING) == StateOf(4)
  {
    var nodes, a, b := Memory(NIL, None, []), AtHead(ADDING), Idle();
    var th := Action(Both(nodes, a, b), 0, a, ADDING).0;
    assert th.preds == [1] && th.succs == [NIL];
    assert Action(Both(nodes, a, b), 0, a, ADDING) == (Adder(LockPred, [], NIL), NoEffect);
    AdderStep(nodes, a, b, ADDING, Adder(LockPred, [], NIL), NoEffect,
              Memory(NIL, None, []));
  }

  lemma {:induction false} Step4()
    ensures Step(StateOf(4), 0, ADDING) == StateOf(5)
  {
    var nodes, a, b := Memory(NIL, None, []), Adder(LockPred, [], NIL), Idle();
    var th := Action(Both(nodes, a, b), 0, a, ADDING).0;
    assert th.held == [1];
    assert Action(Both(nodes, a, b), 0, a, ADDING) == (Adder(CheckPred, [1], NIL), TakeLock(1));
    AdderStep(nodes, a, b, ADDING, Adder(CheckPred, [1], NIL), TakeLock(1),
              Memory(NIL, Some(0), []));
  }

  lemma {:induction false} Step5()
    ensures Step(StateOf(5), 0, ADDING) == StateOf(6)
  {
    var nodes, a, b := Memory(NIL, Some(0), []), Adder(CheckPred, [1], NIL), Idle();
    assert Action(Both(nodes, a, b), 0, a, ADDING) == (Adder(CheckLink, [1], NIL), NoEffect);
    AdderStep(nodes, a, b, ADDING, Adder(CheckLink, [1], NIL), NoEffect,
              Memory(NIL, Some(0), []));
  }

  lemma {:induction false} Step6()
    ensures Step(StateOf(6), 0, ADDING) == StateOf(7)
  {
    var nodes, a, b := Memory(NIL, Some(0), []), Adder(CheckLink, [1], NIL), Idle();
    assert Action(Both(nodes, a, b), 0, a, ADDING) == (Adder(CheckSucc, [1], NIL), NoEffect);
    AdderStep(nodes, a, b, ADDING, Adder(CheckSucc, [1], NIL), NoEffect,
              Memory(NIL, Some(0), []));
  }

  lemma {:induction false} Step7()
    ensures Step(StateOf(7), 0, ADDING) == StateOf(8)
  {
    var nodes, a, b := Memory(NIL, Some(0), []), Adder(CheckSucc, [1], NIL), Idle();
    assert Action(Both(nodes, a, b), 0, a, ADDING) == (Adder(CreateNode, [1], NIL), NoEffect);
    AdderStep(nodes, a, b, ADDING, Adder(CreateNode, [1], NIL), NoEffect,
              Memory(NIL, Some(0), []));
  }

  lemma {:induction false} Step8()
    ensures Step(StateOf(8), 0, ADDING) == StateOf(9)
  {
    var nodes, a, b := Memory(NIL, Some(0), []), Adder(CreateNode, [1], NIL), Idle();
    assert Action(Both(nodes, a, b), 0, a, ADDING) == (Adder(SetOwn, [1], 2), NewNode(FreshNode(KEY, false, 1)));
    assert FreshNode(KEY, false, 1).skip == [NIL];
    assert Apply(Both(nodes, a, b), 0, NewNode(FreshNode(KEY, false, 1))).nodes == Memory(NIL, Some(0), [NewNodeOf(0)]);
    AdderStep(nodes, a, b, ADDING, Adder(SetOwn, [1], 2), NewNode(FreshNode(KEY, false, 1)),
              Memory(NIL, Some(0), [NewNodeOf(0)]));
  }

  lemma {:induction false} Step9()
    ensures Step(StateOf(9), 0, ADDING) == StateOf(10)
  {
    var nodes, a, b := Memory(NIL, Some(0), [NewNodeOf(0)]), Adder(SetOwn, [1], 2), Idle();
    assert Action(Both(nodes, a, b), 0, a, ADDING) == (Adder(SetPred, [1], 2), SetOwnSkip(2, 0, NIL));
    assert Update([NIL], 0, NIL) == [NIL];
    assert Apply(Both(nodes, a, b), 0, SetOwnSkip(2, 0, NIL)).nodes == nodes;
    AdderStep(nodes, a, b, ADDING, Adder(SetPred, [1], 2), SetOwnSkip(2, 0, NIL),
              Memory(NIL, Some(0), [NewNodeOf(0)]));
  }

  lemma {:induction false} Step10()
    ensures Step(StateOf(10), 0, ADDING) == StateOf(11)
  {
    var nodes, a, b := Memory(NIL, Some(0), [NewNodeOf(0)]), Adder(SetPred, [1], 2), Idle();
    assert Action(Both(nodes, a, b), 0, a, ADDING) == (Adder(SetLinked, [1], 2), Link(1, 0, 2));
    assert Update([NIL], 0, 2) == [2];
    assert Apply(Both(nodes, a, b), 0, Link(1, 0, 2)).nodes == Memory(2, Some(0), [NewNodeOf(1)]);
    AdderStep(nodes, a, b, ADDING, Adder(SetLinked, [1], 2), Link(1, 0, 2),
              Memory(2, Some(0), [NewNodeOf(1)]));
  }

  lemma {:induction false} Step11()
    ensures Step(StateOf(11), 1, REMOVING) == StateOf(12)
  {
    var nodes, a, b := Memory(2, Some(0), [NewNodeOf(1)]), Adder(SetLinked, [1], 2), Idle();
    assert Action(Both(nodes, a, b), 1, b, REMOVING) == (Started(REMOVING, LoadHeight), NoEffect);
    RemoverStep(nodes, a, b, REMOVING, Started(REMOVING, LoadHeight));
  }

  lemma {:induction false} Step12()
    ensures Step(StateOf(12), 1, REMOVING) == StateOf(13)
  {
    var nodes, a, b := Memory(2, Some(0), [NewNodeOf(1)]), Adder(SetLinked, [1], 2), Started(REMOVING, LoadHeight);
    assert Action(Both(nodes, a, b), 1, b, REMOVING) == (Started(REMOVING, LoadHead), NoEffect);
    RemoverStep(nodes, a, b, REMOVING, Started(REMOVING, LoadHead));
  }

  lemma {:induction false} Step13()
    ensures Step(StateOf(13), 1, REMOVING) == StateOf(14)
  {
    var nodes, a, b := Memory(2, Some(0), [NewNodeOf(1)]), Adder(SetLinked, [1], 2), Started(REMOVING, LoadHead);
    var th := Action(Both(nodes, a, b), 1, b, REMOVING).0;
    assert th.preds == [NIL] && th.succs == [NIL];
    assert Action(Both(nodes, a, b), 1, b, REMOVING) == (AtHead(REMOVING), NoEffect);
    RemoverStep(nodes, a, b, REMOVING, AtHead(REMOVING));
  }

  /** The remover meets the key. */
  lemma {:induction false} Met(s: State)
    requires SkipAt(s, 1, 0) == 2 && NodeAt(s, 2).key == KEY
    ensures SearchStep(s, AtHead(REMOVING)) == Remover(ReadSkip)
  {
    hide NodeAt, SkipAt;
    var th := SearchStep(s, AtHead(REMOVING));
    assert th.preds == [1] && th.succs == [2];
  }

  lemma {:induction false} MetAction(s: State)
    requires SkipAt(s, 1, 0) == 2 && NodeAt(s, 2).key == KEY
    ensures Action(s, 1, AtHead(REMOVING), REMOVING) == (Remover(RemoveCheckLinked), NoEffect)
  {
    hide NodeAt, SkipAt, SearchStep;
    Met(s);
  }

  lemma {:induction false} LinkedMemory(a: Thread, b: Thread)
    ensures var s := Both(Memory(2, Some(0), [NewNodeOf(1)]), a, b); SkipAt(s, 1, 0) == 2 && NodeAt(s, 2).key == KEY
  {
  }

  lemma {:induction false} Step14()
    ensures Step(StateOf(14), 1, REMOVING) == StateOf(15)
  {
    var nodes, a, b := Memory(2, Some(0), [NewNodeOf(1)]), Adder(SetLinked, [1], 2), AtHead(REMOVING);
    hide Action, SkipAt, NodeAt;
    LinkedMemory(a, b);
    MetAction(Both(nodes, a, b));
    RemoverStep(nodes, a, b, REMOVING, Remover(RemoveCheckLinked));
  }

  lemma {:induction false} Step15()
    ensures Step(StateOf(15), 1, REMOVING) == StateOf(16)
  {
    var nodes, a, b := Memory(2, Some(0), [NewNodeOf(1)]), Adder(SetLinked, [1], 2), Remover(RemoveCheckLinked);
    assert Action(Both(nodes, a, b), 1, b, REMOVING) == (Remover(Done), NoEffect);
    RemoverStep(nodes, a, b, REMOVING, Remover(Done));
  }

  lemma {:induction false} StepNext(n: nat)
    requires n < 16
    ensures Next(StateOf(n), StateOf(n + 1))
  {
    hide Step, StateOf;
    Threads(n);
    match n
    case 0 => Step0();
    case 1 => Step1();
    case 2 => Step2();
    case 3 => Step3();
    case 4 => Step4();
    case 5 => Step5();
    case 6 => Step6();
    case 7 => Step7();
    case 8 => Step8();
    case 9 => Step9();
    case 10 => Step10();
    case 11 => Step11();
    case 12 => Step12();
    case 13 => Step13();
    case 14 => Step14();
    case _ => Step15();
  }

  lemma {:induction false} Threads(n: nat)
    ensures |StateOf(n).threads| == 2
  {
  }

  lemma {:induction false} StartOfRun()
    ensures Init(StateOf(0))
  {
  }

  lemma {:induction false} Linked(n: nat)
    requires n >= 11
    ensures HasKey(StateOf(n), KEY)
  {
    assert InLayer(StateOf(n), 2, 0);
  }

  lemma {:induction false} RemoverPhases(n: nat)
    ensures StateOf(n).threads[1].phase == Done <==> !(12 <= n < 16)
    ensures n >= 16 ==> StateOf(n).threads[1].op == Remove && !StateOf(n).threads[1].isMarked
    ensures n >= 16 ==> StateOf(n).threads[1].data == KEY
  {
  }

  /** The remove fails, and the key has been in the bottom layer in every state from its beginning to its end. */
  lemma {:induction false} RemoveMissesIncomplete() returns (run: seq<State>)
    ensures Reachable(run) && |run| == 17 && Operation(run, 11, 16, 1)
    ensures run[16].threads[1].op == Remove && !run[16].threads[1].isMarked && run[16].threads[1].data == KEY
    ensures forall m: nat :: 11 <= m <= 16 ==> HasKey(run[m], KEY)
  {
    hide StateOf, Init, Next, HasKey;
    run := seq(17, n requires 0 <= n < 17 => StateOf(n));
    StartOfRun();
    forall n: nat | n < 17
      ensures |run[n].threads| == 2 && (run[n].threads[1].phase == Done <==> !(12 <= n < 16))
      ensures n < 16 ==> Next(run[n], run[n + 1])
      ensures n >= 11 ==> HasKey(run[n], KEY)
    {
      Threads(n);
      RemoverPhases(n);
      if n < 16 { StepNext(n); }
      if n >= 11 { Linked(n); }
    }
    RemoverPhases(16);
  }
}
