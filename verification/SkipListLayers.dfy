/** The layers of the skip list as sets of nodes: each link leads to the next node of its layer, and stays so. */
module SkipListLayers {
  import opened Wrappers
  import opened SkipList

  /** The node has been linked at layer k, and may have been unlinked again. */
  predicate EverLinked(s: State, x: nat, k: nat) {
    k < NodeAt(s, x).links
  }

  /** The node is in layer k: the current head, or linked there and not unlinked. */
  predicate InLayer(s: State, x: nat, k: nat) {
    k < NodeAt(s, x).links && if NodeAt(s, x).isHead then x == s.head else k < NodeAt(s, x).kept
  }

  /** Heads come before everything else. */
  predicate Below(s: State, x: nat, y: nat) {
    !NodeAt(s, y).isHead && (NodeAt(s, x).isHead || NodeAt(s, x).key < NodeAt(s, y).key)
  }

  /** Every link that has ever been made leads upwards, to a node of the same layer. */
  ghost predicate LinkUp(s: State, x: nat, k: nat) {
    EverLinked(s, x, k) && SkipAt(s, x, k) != NIL ==> EverLinked(s, SkipAt(s, x, k), k) && Below(s, x, SkipAt(s, x, k))
  }

  /** In a layer the link leads to the immediate successor. */
  ghost predicate LinkNext(s: State, x: nat, k: nat) {
    InLayer(s, x, k) ==>
      && (SkipAt(s, x, k) != NIL ==> InLayer(s, SkipAt(s, x, k), k))
      && forall z: nat :: InLayer(s, z, k) && Below(s, x, z) ==>
           SkipAt(s, x, k) != NIL && (z == SkipAt(s, x, k) || Below(s, SkipAt(s, x, k), z))
  }

  /** No key is twice in a layer. */
  ghost predicate KeyOnce(s: State, x: nat, y: nat, k: nat) {
    && InLayer(s, x, k) && !NodeAt(s, x).isHead
    && InLayer(s, y, k) && !NodeAt(s, y).isHead && NodeAt(s, y).key == NodeAt(s, x).key
    ==> x == y
  }

  ghost predicate NodeShape(s: State, x: nat) {
    var n := NodeAt(s, x);
    && |n.skip| == n.height && n.links <= n.height && n.kept <= n.height
    && (x == NIL ==> n.links == 0 && n.height == 0)
    && (n.isHead && n.links > 0 ==> n.links == n.height && n.kept == n.height)
    && (!n.isHead && n.links > 0 ==> n.height <= NodeAt(s, s.head).height)
    && (n.fullyLinked ==> n.links == n.height)
    && (n.kept < n.height ==> n.marked)
    && (n.marked && !n.isHead ==> n.fullyLinked)
  }

  ghost predicate Layers(s: State) {
    && NIL < s.head < |s.nodes| && NodeAt(s, s.head).isHead && NodeAt(s, s.head).links > 0 && !NodeAt(s, s.head).marked
    && (forall x: nat :: NodeShape(s, x))
    && (forall x: nat, k: nat :: LinkUp(s, x, k))
    && (forall x: nat, k: nat :: LinkNext(s, x, k))
    && (forall x: nat, y: nat, k: nat :: KeyOnce(s, x, y, k))
  }

  // ---- What the changes of the shared memory need ----

  ghost predicate LinkOk(s: State, p: nat, k: nat, n: nat) {
    var y := SkipAt(s, n, k);
    && InLayer(s, p, k) && p < |s.nodes| && n != NIL && n < |s.nodes| && n != p
    && !NodeAt(s, n).isHead && NodeAt(s, n).links == k < NodeAt(s, n).height && NodeAt(s, n).kept == NodeAt(s, n).height
    && !NodeAt(s, n).marked && !NodeAt(s, n).fullyLinked && NodeAt(s, n).height <= NodeAt(s, s.head).height
    && y == SkipAt(s, p, k) && Below(s, p, n) && (y != NIL ==> Below(s, n, y))
  }

  ghost predicate UnlinkOk(s: State, p: nat, k: nat, d: nat, z: nat) {
    && InLayer(s, p, k) && p < |s.nodes| && InLayer(s, d, k) && d < |s.nodes| && p != d && !NodeAt(s, d).isHead
    && NodeAt(s, d).kept == k + 1 && NodeAt(s, d).marked && SkipAt(s, p, k) == d && SkipAt(s, d, k) == z
  }

  ghost predicate HeadOk(s: State, h: nat) {
    && h < |s.nodes| && h != s.head && NodeAt(s, h).isHead && NodeAt(s, h).links == 0 && !NodeAt(s, h).marked
    && NodeAt(s, h).kept == NodeAt(s, h).height
    && NodeAt(s, s.head).height < NodeAt(s, h).height
    && forall k: nat :: SkipAt(s, h, k) == if k < NodeAt(s, s.head).height then SkipAt(s, s.head, k) else NIL
  }

  /** What a step may do to the shared memory. */
  ghost predicate Allowed(s: State, t: nat, e: Effect) {
    match e
    case NoEffect => true
    case SetOwnSkip(x, k, y) => x < |s.nodes| && NodeAt(s, x).links <= k
    case Link(x, k, y) => LinkOk(s, x, k, y) && NodeAt(s, x).lock == Some(t)
    case Unlink(x, k, y, z) => UnlinkOk(s, x, k, y, z) && NodeAt(s, x).lock == Some(t) && NodeAt(s, y).lock == Some(t)
    case SetMarked(x) => x < |s.nodes| && x != s.head && (!NodeAt(s, x).isHead ==> NodeAt(s, x).fullyLinked) &&
        NodeAt(s, x).lock == Some(t)
    case SetFullyLinked(x) => x < |s.nodes| && NodeAt(s, x).links == NodeAt(s, x).height && x != NIL
    case TakeLock(x) => x < |s.nodes| && NodeAt(s, x).lock == None && x != NIL
    case DropLock(x) => x < |s.nodes| && NodeAt(s, x).lock == Some(t)
    case NewNode(node) => node == FreshNode(node.key, node.isHead, node.height)
    case SetHead(x) => HeadOk(s, x) && NodeAt(s, s.head).lock == Some(t)
  }

  // ---- The shared memory after a step ----

  /** What has changed, field by field; everything not mentioned is as before. */
  ghost predicate View(s: State, s': State, t: nat, e: Effect) {
    && |s'.nodes| == |s.nodes| + (if e.NewNode? then 1 else 0)
    && s'.head == (if e.SetHead? then e.x else s.head)
    && (forall x: nat {:trigger NodeAt(s', x)} :: x != |s.nodes| || !e.NewNode? ==>
          && NodeAt(s', x).key == NodeAt(s, x).key && NodeAt(s', x).isHead == NodeAt(s, x).isHead &&
              NodeAt(s', x).height == NodeAt(s, x).height
          && NodeAt(s', x).marked == (NodeAt(s, x).marked || (e.SetMarked? && e.x == x))
          && NodeAt(s', x).fullyLinked == (NodeAt(s, x).fullyLinked || (e.SetFullyLinked? && e.x == x))
          && NodeAt(s', x).links == (if e.Link? && e.y == x then e.k + 1 else if e.SetHead? && e.x == x
                                     then NodeAt(s, x).height else NodeAt(s, x).links)
          && NodeAt(s', x).kept == (if e.Unlink? && e.y == x then e.k else NodeAt(s, x).kept)
          && NodeAt(s', x).lock == (if e.TakeLock? && e.x == x then Some(t) else if e.DropLock? && e.x == x then None
                                    else NodeAt(s, x).lock)
          && |NodeAt(s', x).skip| == |NodeAt(s, x).skip|)
    && (e.NewNode? ==> NodeAt(s', |s.nodes|) == e.node)
    && (forall x: nat, k: nat {:trigger SkipAt(s', x, k)} ::
          SkipAt(s', x, k) == if e.SetOwnSkip? && e.x == x && e.k == k && k < |NodeAt(s, x).skip| then e.y
                              else if e.Link? && e.x == x && e.k == k then e.y
                              else if e.Unlink? && e.x == x && e.k == k then e.z else SkipAt(s, x, k))
  }

  lemma {:induction false} FieldsAfter(s: State, t: nat, e: Effect, x: nat)
    requires Layers(s) && Allowed(s, t, e) && (x != |s.nodes| || !e.NewNode?)
    ensures var n, m := NodeAt(Apply(s, t, e), x), NodeAt(s, x);
            && m.key == n.key && m.isHead == n.isHead && m.height == n.height && |m.skip| == |n.skip|
            && n.marked == (m.marked || (e.SetMarked? && e.x == x))
            && n.fullyLinked == (m.fullyLinked || (e.SetFullyLinked? && e.x == x))
            && n.links == (if e.Link? && e.y == x then e.k + 1 else if e.SetHead? && e.x == x then m.height
                           else m.links)
            && n.kept == (if e.Unlink? && e.y == x then e.k else m.kept)
            && n.lock == (if e.TakeLock? && e.x == x then Some(t) else if e.DropLock? && e.x == x then None else m.lock)
  {
    hide LinkUp, LinkNext, KeyOnce, NodeShape, Below;
  }

  lemma {:induction false} SkipAfter(s: State, t: nat, e: Effect, x: nat, k: nat)
    requires Layers(s) && Allowed(s, t, e)
    ensures SkipAt(Apply(s, t, e), x, k) == if e.SetOwnSkip? && e.x == x && e.k == k && k < |NodeAt(s, x).skip| then e.y
                                            else if e.Link? && e.x == x && e.k == k then e.y
                                            else if e.Unlink? && e.x == x && e.k == k then e.z else SkipAt(s, x, k)
  {
    hide LinkUp, LinkNext, KeyOnce, Below;
    assert NodeShape(s, x);
  }

  lemma {:induction false} EffectView(s: State, t: nat, e: Effect)
    requires Layers(s) && Allowed(s, t, e)
    ensures View(s, Apply(s, t, e), t, e)
  {
    hide LinkUp, LinkNext, KeyOnce, NodeShape, Below, NodeAt, SkipAt, Layers, Allowed;
    var s' := Apply(s, t, e);
    SizesAfter(s, t, e);
    forall x: nat | x != |s.nodes| || !e.NewNode?
      ensures var n, m := NodeAt(s', x), NodeAt(s, x);
              && m.key == n.key && m.isHead == n.isHead && m.height == n.height && |m.skip| == |n.skip|
              && n.marked == (m.marked || (e.SetMarked? && e.x == x))
              && n.fullyLinked == (m.fullyLinked || (e.SetFullyLinked? && e.x == x))
              && n.links == (if e.Link? && e.y == x then e.k + 1 else if e.SetHead? && e.x == x then m.height
                             else m.links)
              && n.kept == (if e.Unlink? && e.y == x then e.k else m.kept)
              && n.lock == (if e.TakeLock? && e.x == x then Some(t) else if e.DropLock? && e.x == x then None
                            else m.lock)
    {
      FieldsAfter(s, t, e, x);
    }
    forall x: nat, k: nat
      ensures SkipAt(s', x, k) == if e.SetOwnSkip? && e.x == x && e.k == k && k < |NodeAt(s, x).skip| then e.y
                                  else if e.Link? && e.x == x && e.k == k then e.y
                                  else if e.Unlink? && e.x == x && e.k == k then e.z else SkipAt(s, x, k)
    {
      SkipAfter(s, t, e, x, k);
    }
  }

  lemma {:induction false} SizesAfter(s: State, t: nat, e: Effect)
    requires Layers(s) && Allowed(s, t, e)
    ensures |Apply(s, t, e).nodes| == |s.nodes| + (if e.NewNode? then 1 else 0)
    ensures Apply(s, t, e).head == (if e.SetHead? then e.x else s.head)
    ensures e.NewNode? ==> NodeAt(Apply(s, t, e), |s.nodes|) == e.node
  {
    hide LinkUp, LinkNext, KeyOnce, NodeShape, Below;
  }

  /** The order of two nodes never changes. */
  lemma {:induction false} BelowKept(s: State, s': State, t: nat, e: Effect, x: nat, y: nat)
    requires View(s, s', t, e) && x < |s.nodes| && y < |s.nodes|
    ensures Below(s', x, y) == Below(s, x, y)
  {
    hide NodeAt, SkipAt;
  }

  // ---- The layers after a step ----

  /** s' is s after an allowed effect of thread t. */
  ghost predicate Changed(s: State, s': State, t: nat, e: Effect) {
    Layers(s) && Allowed(s, t, e) && View(s, s', t, e)
  }

  /** What has ever been linked stays so, in the same place of the order. */
  lemma {:induction false} EverKept(s: State, s': State, t: nat, e: Effect, x: nat, k: nat)
    requires Changed(s, s', t, e) && EverLinked(s, x, k)
    ensures EverLinked(s', x, k) && x < |s.nodes| && x != NIL
  {
    hide NodeAt, SkipAt, LinkUp, LinkNext, KeyOnce, Below;
    assert NodeShape(s, x);
    LinkedInRange(s, x);
  }

  lemma {:induction false} LinkedInRange(s: State, x: nat)
    requires NodeAt(s, x).links > 0
    ensures x < |s.nodes|
  {
  }

  lemma {:induction false} InRange(s: State, x: nat, k: nat)
    requires InLayer(s, x, k)
    ensures x < |s.nodes| && EverLinked(s, x, k)
  {
    hide SkipAt;
  }

  /** Who has come into a layer: the node that is linked, or the new head. */
  lemma {:induction false} Entered(s: State, s': State, t: nat, e: Effect, x: nat, k: nat)
    requires Changed(s, s', t, e) && InLayer(s', x, k)
    ensures InLayer(s, x, k) || e == Link(e.x, k, x) || (e == SetHead(x) && k < NodeAt(s, x).height)
    ensures x < |s.nodes|
  {
    hide SkipAt, LinkUp, LinkNext, KeyOnce, Below;
    assert NodeShape(s, x);
    assert NodeAt(s', x).links > 0;
  }

  /** Who has left: the node that is unlinked, or the old head. */
  lemma {:induction false} Left(s: State, s': State, t: nat, e: Effect, x: nat, k: nat)
    requires Changed(s, s', t, e) && InLayer(s, x, k)
    ensures InLayer(s', x, k) || (e.Unlink? && e.y == x && e.k == k) || (e.SetHead? && x == s.head)
  {
    hide SkipAt, LinkUp, LinkNext, KeyOnce, Below;
    assert NodeShape(s, x);
    InRange(s, x, k);
  }

  lemma {:induction false} ShapeKept(s: State, s': State, t: nat, e: Effect, x: nat)
    requires Changed(s, s', t, e)
    ensures NodeShape(s', x)
    ensures NIL < s'.head < |s'.nodes| && NodeAt(s', s'.head).isHead && NodeAt(s', s'.head).links > 0 &&
            !NodeAt(s', s'.head).marked
  {
    hide NodeAt, SkipAt, LinkUp, LinkNext, KeyOnce, Below;
    assert NodeShape(s, x) && NodeShape(s, s.head);
    if e.SetHead? { assert NodeShape(s, e.x); }
    NilIsNoHead(s);
  }

  lemma {:induction false} NilIsNoHead(s: State)
    requires Layers(s)
    ensures NodeAt(s, NIL).links == 0 && NodeAt(s, s.head).height > 0
  {
    hide NodeAt, SkipAt, LinkUp, LinkNext, KeyOnce, Below;
    assert NodeShape(s, NIL) && NodeShape(s, s.head);
  }

  lemma {:induction false} LinkUpKept(s: State, s': State, t: nat, e: Effect, x: nat, k: nat)
    requires Changed(s, s', t, e)
    ensures LinkUp(s', x, k)
  {
    hide NodeAt, SkipAt, LinkNext, KeyOnce, Below, NodeShape, View;
    if EverLinked(s', x, k) && SkipAt(s', x, k) != NIL {
      if EverLinked(s, x, k) {
        OldLinkUp(s, s', t, e, x, k);
      } else {
        NewLinkUp(s, s', t, e, x, k);
      }
    }
  }

  lemma {:induction false} OldLinkUp(s: State, s': State, t: nat, e: Effect, x: nat, k: nat)
    requires Changed(s, s', t, e) && EverLinked(s, x, k) && SkipAt(s', x, k) != NIL
    ensures EverLinked(s', SkipAt(s', x, k), k) && Below(s', x, SkipAt(s', x, k))
  {
    hide NodeAt, SkipAt, LinkNext, KeyOnce, Below, NodeShape, InLayer;
    EverKept(s, s', t, e, x, k);
    assert LinkUp(s, x, k);
    if e.Link? && e.x == x && e.k == k {
      BelowKept(s, s', t, e, x, e.y);
    } else if e.Unlink? && e.x == x && e.k == k {
      UnlinkedBelow(s, x, k, e.y, e.z);
      EverKept(s, s', t, e, e.z, k);
      BelowKept(s, s', t, e, x, e.z);
    } else {
      assert SkipAt(s', x, k) == SkipAt(s, x, k);
      EverKept(s, s', t, e, SkipAt(s, x, k), k);
      BelowKept(s, s', t, e, x, SkipAt(s, x, k));
    }
  }

  /** What follows an unlinked node is above its predecessor. */
  lemma {:induction false} UnlinkedBelow(s: State, p: nat, k: nat, d: nat, z: nat)
    requires Layers(s) && UnlinkOk(s, p, k, d, z)
    ensures z != NIL ==> EverLinked(s, z, k) && Below(s, p, z)
  {
    hide NodeAt, SkipAt, LinkNext, KeyOnce, NodeShape;
    DeletedNotNil(s, d, k);
    InRange(s, p, k);
    InRange(s, d, k);
    assert LinkUp(s, p, k) && LinkUp(s, d, k);
  }

  lemma {:induction false} DeletedNotNil(s: State, d: nat, k: nat)
    requires Layers(s) && InLayer(s, d, k)
    ensures d != NIL
  {
    hide SkipAt, LinkNext, KeyOnce, LinkUp;
    assert NodeShape(s, d);
  }

  lemma {:induction false} NewLinkUp(s: State, s': State, t: nat, e: Effect, x: nat, k: nat)
    requires Changed(s, s', t, e) && !EverLinked(s, x, k) && EverLinked(s', x, k) && SkipAt(s', x, k) != NIL
    ensures EverLinked(s', SkipAt(s', x, k), k) && Below(s', x, SkipAt(s', x, k))
  {
    hide NodeAt, SkipAt, LinkNext, KeyOnce, NodeShape, InLayer, Layers;
    NewlyLinked(s, s', t, e, x, k);
    var y := SkipAt(s, x, k);
    if e.Link? {
      LinkTarget(s, e.x, k, x);
      EverKept(s, s', t, e, y, k);
    } else {
      HeadTarget(s, x, k);
      EverKept(s, s', t, e, y, k);
    }
    BelowKept(s, s', t, e, x, y);
  }

  lemma {:induction false} NewlyLinked(s: State, s': State, t: nat, e: Effect, x: nat, k: nat)
    requires Changed(s, s', t, e) && !EverLinked(s, x, k) && EverLinked(s', x, k)
    ensures (e == Link(e.x, k, x) || e == SetHead(x)) && x < |s.nodes| && SkipAt(s', x, k) == SkipAt(s, x, k)
  {
    hide SkipAt, LinkNext, KeyOnce, LinkUp, Below;
    assert NodeShape(s, x);
    assert NodeAt(s', x).links > 0;
  }

  lemma {:induction false} LinkTarget(s: State, p: nat, k: nat, n: nat)
    requires Layers(s) && LinkOk(s, p, k, n) && SkipAt(s, n, k) != NIL
    ensures EverLinked(s, SkipAt(s, n, k), k) && Below(s, n, SkipAt(s, n, k))
  {
    hide NodeAt, SkipAt, LinkNext, KeyOnce, NodeShape, Below;
    InRange(s, p, k);
    assert LinkUp(s, p, k);
  }

  lemma {:induction false} HeadTarget(s: State, h: nat, k: nat)
    requires Layers(s) && HeadOk(s, h) && SkipAt(s, h, k) != NIL
    ensures EverLinked(s, SkipAt(s, h, k), k) && Below(s, h, SkipAt(s, h, k))
  {
    hide SkipAt, LinkNext, KeyOnce;
    assert NodeShape(s, s.head) && LinkUp(s, s.head, k);
  }

  // ---- Immediate successors ----

  lemma {:induction false} BelowTransitive(s: State, x: nat, y: nat, z: nat)
    requires Below(s, x, y) && Below(s, y, z)
    ensures Below(s, x, z)
  {
    hide NodeAt;
  }

  lemma {:induction false} LinkNextKept(s: State, s': State, t: nat, e: Effect, x: nat, k: nat)
    requires Changed(s, s', t, e) && InLayer(s', x, k)
    ensures SkipAt(s', x, k) != NIL ==> InLayer(s', SkipAt(s', x, k), k)
  {
    hide NodeAt, SkipAt, KeyOnce, NodeShape, Below, InLayer, LinkUp;
    Entered(s, s', t, e, x, k);
    var y := SkipAt(s', x, k);
    if y != NIL {
      if !InLayer(s, x, k) {
        NewNext(s, s', t, e, x, k);
      } else if e.Link? && e.x == x && e.k == k {
        LinkedIn(s, s', t, e);
      } else if e.Unlink? && e.x == x && e.k == k {
        UnlinkedNext(s, s', t, e);
      } else {
        StillNext(s, s', t, e, x, k);
      }
    }
  }

  /** The link of a node that has just come into the layer. */
  lemma {:induction false} NewNext(s: State, s': State, t: nat, e: Effect, x: nat, k: nat)
    requires Changed(s, s', t, e) && !InLayer(s, x, k) && InLayer(s', x, k) && SkipAt(s', x, k) != NIL
    ensures InLayer(s', SkipAt(s', x, k), k)
  {
    hide NodeAt, SkipAt, KeyOnce, NodeShape, Below, InLayer, LinkUp;
    Entered(s, s', t, e, x, k);
    var p := if e.Link? then e.x else s.head;
    SameNext(s, s', t, e, x, k);
    HeadIn(s, k);
    assert LinkNext(s, p, k);
    Left(s, s', t, e, SkipAt(s, p, k), k);
    if e.SetHead? { NextIsNoHead(s, p, k); }
  }

  lemma {:induction false} SameNext(s: State, s': State, t: nat, e: Effect, x: nat, k: nat)
    requires Changed(s, s', t, e) && ((e.Link? && e.k == k && e.y == x) || e == SetHead(x)) && SkipAt(s', x, k) != NIL
    ensures SkipAt(s', x, k) == SkipAt(s, if e.Link? then e.x else s.head, k)
    ensures e.SetHead? ==> k < NodeAt(s, s.head).height
  {
    hide NodeAt, SkipAt, KeyOnce, NodeShape, Below, InLayer, LinkUp, LinkNext;
  }

  lemma {:induction false} HeadIn(s: State, k: nat)
    requires Layers(s)
    ensures InLayer(s, s.head, k) <==> k < NodeAt(s, s.head).height
  {
    hide NodeAt, SkipAt, KeyOnce, Below, LinkUp, LinkNext;
    assert NodeShape(s, s.head);
  }

  lemma {:induction false} NextIsNoHead(s: State, p: nat, k: nat)
    requires Layers(s) && InLayer(s, p, k) && SkipAt(s, p, k) != NIL
    ensures SkipAt(s, p, k) != s.head && !NodeAt(s, SkipAt(s, p, k)).isHead && Below(s, p, SkipAt(s, p, k))
  {
    hide NodeAt, SkipAt, KeyOnce, LinkNext, NodeShape;
    InRange(s, p, k);
    assert LinkUp(s, p, k);
  }

  lemma {:induction false} LinkedIn(s: State, s': State, t: nat, e: Effect)
    requires Changed(s, s', t, e) && e.Link?
    ensures InLayer(s', e.y, e.k) && SkipAt(s', e.x, e.k) == e.y && SkipAt(s', e.y, e.k) == SkipAt(s, e.x, e.k) &&
            !InLayer(s, e.y, e.k)
  {
    hide NodeAt, SkipAt, KeyOnce, NodeShape, Below, LinkUp, LinkNext;
  }

  lemma {:induction false} UnlinkedNext(s: State, s': State, t: nat, e: Effect)
    requires Changed(s, s', t, e) && e.Unlink? && SkipAt(s', e.x, e.k) != NIL
    ensures InLayer(s', SkipAt(s', e.x, e.k), e.k) && SkipAt(s', e.x, e.k) == e.z
  {
    hide NodeAt, SkipAt, KeyOnce, NodeShape, InLayer, LinkUp;
    assert LinkNext(s, e.y, e.k);
    NextIsNoHead(s, e.y, e.k);
    BelowIrreflexive(s, e.y);
    Left(s, s', t, e, e.z, e.k);
  }

  lemma {:induction false} BelowIrreflexive(s: State, x: nat)
    ensures !Below(s, x, x)
  {
  }

  lemma {:induction false} StillNext(s: State, s': State, t: nat, e: Effect, x: nat, k: nat)
    requires Changed(s, s', t, e) && InLayer(s, x, k) && InLayer(s', x, k) && SkipAt(s', x, k) != NIL
    requires !(e.Link? && e.x == x && e.k == k) && !(e.Unlink? && e.x == x && e.k == k)
    ensures SkipAt(s', x, k) == SkipAt(s, x, k) && InLayer(s', SkipAt(s', x, k), k)
  {
    hide NodeAt, SkipAt, KeyOnce, NodeShape, Below, LinkUp;
    InRange(s, x, k);
    assert LinkNext(s, x, k);
    var y := SkipAt(s, x, k);
    assert SkipAt(s', x, k) == y;
    NextIsNoHead(s, x, k);
    Left(s, s', t, e, y, k);
    if e.Unlink? && e.y == y && e.k == k { OnePredecessor(s, e.x, x, k, y); }
  }

  /** Two nodes of a layer cannot have the same successor. */
  lemma {:induction false} OnePredecessor(s: State, p: nat, x: nat, k: nat, y: nat)
    requires Layers(s) && InLayer(s, p, k) && InLayer(s, x, k) && SkipAt(s, p, k) == y && SkipAt(s, x, k) == y &&
             y != NIL
    ensures p == x
  {
    hide NodeAt, SkipAt, NodeShape, LinkUp, InLayer, LinkNext;
    if p != x {
      Comparable(s, p, x, k);
      if Below(s, p, x) { NothingBetween(s, p, x, k); } else { NothingBetween(s, x, p, k); }
    }
  }

  /** Different nodes of a layer are ordered. */
  lemma {:induction false} Comparable(s: State, x: nat, y: nat, k: nat)
    requires Layers(s) && InLayer(s, x, k) && InLayer(s, y, k) && x != y
    ensures Below(s, x, y) || Below(s, y, x)
  {
    hide NodeAt, SkipAt, NodeShape, LinkUp, LinkNext;
    assert KeyOnce(s, x, y, k);
  }

  /** A node of the layer above x is not below the successor of x, nor is that the successor of it. */
  lemma {:induction false} NothingBetween(s: State, x: nat, z: nat, k: nat)
    requires Layers(s) && InLayer(s, x, k) && InLayer(s, z, k) && Below(s, x, z)
    ensures SkipAt(s, x, k) != NIL && !Below(s, z, SkipAt(s, x, k)) && SkipAt(s, z, k) != SkipAt(s, x, k)
  {
    hide NodeAt, SkipAt, NodeShape, LinkUp, InLayer, KeyOnce;
    assert LinkNext(s, x, k);
    BelowAntisymmetric(s, z, SkipAt(s, x, k));
    if SkipAt(s, z, k) != NIL { NextIsNoHead(s, z, k); }
  }

  lemma {:induction false} BelowAntisymmetric(s: State, x: nat, y: nat)
    ensures !(Below(s, x, y) && Below(s, y, x)) && !Below(s, x, x)
  {
    hide NodeAt;
  }

  /** z is the successor of x in layer k, or above it. */
  predicate Reached(s: State, x: nat, z: nat, k: nat) {
    SkipAt(s, x, k) != NIL && (z == SkipAt(s, x, k) || Below(s, SkipAt(s, x, k), z))
  }

  lemma {:induction false} NextReached(s: State, x: nat, z: nat, k: nat)
    requires Layers(s) && InLayer(s, x, k) && InLayer(s, z, k) && Below(s, x, z)
    ensures Reached(s, x, z, k)
  {
    hide NodeAt, SkipAt, NodeShape, LinkUp, InLayer, KeyOnce, Below;
    assert LinkNext(s, x, k);
  }

  /** A node newly linked behind p is reached before everything above p. */
  lemma {:induction false} LinkComesFirst(s: State, p: nat, k: nat, n: nat, z: nat)
    requires Layers(s) && LinkOk(s, p, k, n) && InLayer(s, z, k) && Below(s, p, z)
    ensures SkipAt(s, p, k) != NIL && Below(s, n, z) && (z == SkipAt(s, p, k) || Below(s, SkipAt(s, p, k), z))
  {
    hide NodeAt, SkipAt, NodeShape, LinkUp, InLayer, KeyOnce;
    NextReached(s, p, z, k);
  }

  lemma {:induction false} SuccessorKept(s: State, s': State, t: nat, e: Effect, x: nat, z: nat, k: nat)
    requires Changed(s, s', t, e) && InLayer(s', x, k) && InLayer(s', z, k) && Below(s', x, z)
    ensures Reached(s', x, z, k)
  {
    hide NodeAt, SkipAt, NodeShape, LinkUp, InLayer, KeyOnce, Below, LinkNext, View, Allowed, Layers, Reached;
    Entered(s, s', t, e, x, k);
    Entered(s, s', t, e, z, k);
    BelowKept(s, s', t, e, x, z);
    if InLayer(s, x, k) && InLayer(s, z, k) {
      OldPair(s, s', t, e, x, z, k);
    } else if InLayer(s, z, k) {
      NewFirst(s, s', t, e, x, z, k);
    } else {
      NewSecond(s, s', t, e, x, z, k);
    }
  }

  lemma {:induction false} OldPair(s: State, s': State, t: nat, e: Effect, x: nat, z: nat, k: nat)
    requires Changed(s, s', t, e) && InLayer(s, x, k) && InLayer(s, z, k) && Below(s, x, z) && InLayer(s', z, k)
    ensures Reached(s', x, z, k)
  {
    hide NodeAt, SkipAt, NodeShape, LinkUp, KeyOnce, Below, LinkNext, Layers;
    InRange(s, x, k);
    InRange(s, z, k);
    NextReached(s, x, z, k);
    if e.Link? && e.x == x && e.k == k {
      LinkComesFirst(s, x, k, e.y, z);
      BelowKept(s, s', t, e, e.y, z);
    } else if e.Unlink? && e.x == x && e.k == k {
      UnlinkedOut(s, s', t, e);
      NextReached(s, e.y, z, k);
      SkipInRange(s, e.y, k);
      BelowKept(s, s', t, e, e.z, z);
    } else {
      SkipInRange(s, x, k);
      BelowKept(s, s', t, e, SkipAt(s, x, k), z);
    }
  }

  lemma {:induction false} SkipInRange(s: State, x: nat, k: nat)
    requires Layers(s) && InLayer(s, x, k) && SkipAt(s, x, k) != NIL
    ensures SkipAt(s, x, k) < |s.nodes|
  {
    hide NodeAt, SkipAt, NodeShape, KeyOnce, Below, LinkUp, InLayer;
    assert LinkNext(s, x, k);
    InRange(s, SkipAt(s, x, k), k);
  }

  lemma {:induction false} UnlinkedOut(s: State, s': State, t: nat, e: Effect)
    requires Changed(s, s', t, e) && e.Unlink?
    ensures !InLayer(s', e.y, e.k) && SkipAt(s', e.x, e.k) == e.z == SkipAt(s, e.y, e.k) && InLayer(s, e.y, e.k) &&
            SkipAt(s, e.x, e.k) == e.y
  {
    hide NodeAt, SkipAt, NodeShape, LinkUp, KeyOnce, Below, LinkNext;
  }

  lemma {:induction false} NewFirst(s: State, s': State, t: nat, e: Effect, x: nat, z: nat, k: nat)
    requires Changed(s, s', t, e) && !InLayer(s, x, k) && InLayer(s, z, k) && InLayer(s', x, k) && Below(s, x, z)
    ensures Reached(s', x, z, k)
  {
    hide NodeAt, SkipAt, NodeShape, LinkUp, KeyOnce, Below, LinkNext, Layers, InLayer;
    Entered(s, s', t, e, x, k);
    InRange(s, z, k);
    if e.Link? {
      LinkedIn(s, s', t, e);
      LinkFacts(s, e.x, k, x);
      BelowTransitive(s, e.x, x, z);
      LinkComesFirst(s, e.x, k, x, z);
      SkipInRange(s, e.x, k);
      BelowKept(s, s', t, e, SkipAt(s, e.x, k), z);
    } else {
      HeadReaches(s, x, z, k);
      NewHeadSkip(s, s', t, e, k);
      SkipInRange(s, s.head, k);
      BelowKept(s, s', t, e, SkipAt(s, s.head, k), z);
    }
  }

  lemma {:induction false} LinkFacts(s: State, p: nat, k: nat, n: nat)
    requires LinkOk(s, p, k, n)
    ensures InLayer(s, p, k) && Below(s, p, n) && p < |s.nodes| && n < |s.nodes| && p != n && !InLayer(s, n, k)
  {
    hide SkipAt;
  }

  lemma {:induction false} HeadReaches(s: State, h: nat, z: nat, k: nat)
    requires Layers(s) && InLayer(s, z, k) && Below(s, h, z)
    ensures k < NodeAt(s, s.head).height && InLayer(s, s.head, k) && Reached(s, s.head, z, k)
  {
    hide SkipAt, LinkUp, KeyOnce, LinkNext;
    assert NodeShape(s, z) && NodeShape(s, s.head);
    NextReached(s, s.head, z, k);
  }

  lemma {:induction false} NewHeadSkip(s: State, s': State, t: nat, e: Effect, k: nat)
    requires Changed(s, s', t, e) && e.SetHead? && k < NodeAt(s, s.head).height
    ensures SkipAt(s', e.x, k) == SkipAt(s, s.head, k)
  {
    hide NodeAt, SkipAt, LinkUp, KeyOnce, LinkNext, Layers;
  }

  lemma {:induction false} NewSecond(s: State, s': State, t: nat, e: Effect, x: nat, z: nat, k: nat)
    requires Changed(s, s', t, e) && !InLayer(s, z, k) && InLayer(s', x, k) && InLayer(s', z, k) && Below(s, x, z)
    ensures Reached(s', x, z, k)
  {
    hide NodeAt, SkipAt, NodeShape, LinkUp, KeyOnce, LinkNext, Layers, InLayer, View, Allowed;
    Entered(s, s', t, e, z, k);
    Entered(s, s', t, e, x, k);
    NotHead(s, x, z);
    BelowAntisymmetric(s, x, z);
    if e.SetHead? { SetHeadIsHead(s, s', t, e); }
    LinkEffect(s, s', t, e);
    var p := e.x;
    LinkedIn(s, s', t, e);
    LinkFacts(s, p, k, z);
    InRange(s, x, k);
    if x != p {
      Comparable(s, x, p, k);
      if Below(s, x, p) {
        NextReached(s, x, p, k);
        SkipUnchanged(s, s', t, e, x, k);
        SkipInRange(s, x, k);
        BelowKept(s, s', t, e, SkipAt(s, x, k), z);
      } else {
        LinkComesFirst(s, p, k, z, x);
        assert false;
      }
    }
  }

  lemma {:induction false} NotHead(s: State, x: nat, z: nat)
    requires Below(s, x, z)
    ensures !NodeAt(s, z).isHead
  {
    hide NodeAt;
  }

  lemma {:induction false} SetHeadIsHead(s: State, s': State, t: nat, e: Effect)
    requires Changed(s, s', t, e) && e.SetHead?
    ensures NodeAt(s, e.x).isHead
  {
    hide NodeAt, SkipAt, NodeShape, LinkUp, KeyOnce, LinkNext, Layers;
  }

  lemma {:induction false} LinkEffect(s: State, s': State, t: nat, e: Effect)
    requires Changed(s, s', t, e) && e.Link?
    ensures LinkOk(s, e.x, e.k, e.y)
  {
    hide NodeAt, SkipAt, NodeShape, LinkUp, KeyOnce, LinkNext, Layers, LinkOk;
  }

  lemma {:induction false} SkipUnchanged(s: State, s': State, t: nat, e: Effect, x: nat, k: nat)
    requires Changed(s, s', t, e) && e.Link? && e.x != x
    ensures SkipAt(s', x, k) == SkipAt(s, x, k)
  {
    hide NodeAt, SkipAt, NodeShape, LinkUp, KeyOnce, LinkNext, Layers;
  }

  lemma {:induction false} KeyOnceKept(s: State, s': State, t: nat, e: Effect, x: nat, y: nat, k: nat)
    requires Changed(s, s', t, e)
    ensures KeyOnce(s', x, y, k)
  {
    hide SkipAt, NodeShape, LinkUp, LinkNext, InLayer, View, Allowed, NodeAt;
    if InLayer(s', x, k) && InLayer(s', y, k) && !NodeAt(s', x).isHead && !NodeAt(s', y).isHead &&
        NodeAt(s', x).key == NodeAt(s', y).key {
      Entered(s, s', t, e, x, k);
      Entered(s, s', t, e, y, k);
      SameKeys(s, s', t, e, x, y);
      assert KeyOnce(s, x, y, k);
      if e.Link? && e.k == k {
        if !InLayer(s, x, k) && InLayer(s, y, k) { NewKeyDiffers(s, e.x, k, x, y); }
        if !InLayer(s, y, k) && InLayer(s, x, k) { NewKeyDiffers(s, e.x, k, y, x); }
      }
    }
  }

  lemma {:induction false} SameKeys(s: State, s': State, t: nat, e: Effect, x: nat, y: nat)
    requires Changed(s, s', t, e) && x < |s.nodes| && y < |s.nodes|
    ensures NodeAt(s', x).key == NodeAt(s, x).key && NodeAt(s', y).key == NodeAt(s, y).key
    ensures NodeAt(s', x).isHead == NodeAt(s, x).isHead && NodeAt(s', y).isHead == NodeAt(s, y).isHead
    ensures e.SetHead? ==> NodeAt(s, e.x).isHead
    ensures e.Link? ==> LinkOk(s, e.x, e.k, e.y)
  {
    hide NodeAt, SkipAt, NodeShape, LinkUp, KeyOnce, LinkNext, Layers;
  }

  /** The key of a newly linked node is not yet in the layer. */
  lemma {:induction false} NewKeyDiffers(s: State, p: nat, k: nat, n: nat, w: nat)
    requires Layers(s) && LinkOk(s, p, k, n) && InLayer(s, w, k) && !NodeAt(s, w).isHead
    ensures NodeAt(s, w).key != NodeAt(s, n).key
  {
    hide SkipAt, NodeShape, LinkUp, KeyOnce, LinkNext, InLayer;
    if NodeAt(s, w).key == NodeAt(s, n).key { LinkComesFirst(s, p, k, n, w); }
  }

  /** Every allowed change keeps the layers. */
  lemma {:induction false} LayersKept(s: State, s': State, t: nat, e: Effect)
    requires Changed(s, s', t, e)
    ensures Layers(s')
  {
    hide NodeAt, SkipAt, NodeShape, LinkUp, KeyOnce, InLayer, View, Allowed, Below, Changed;
    forall x: nat
      ensures NodeShape(s', x)
    {
      ShapeKept(s, s', t, e, x);
    }
    ShapeKept(s, s', t, e, 0);
    forall x: nat, k: nat
      ensures LinkUp(s', x, k) && LinkNext(s', x, k)
    {
      LinkUpKept(s, s', t, e, x, k);
      if InLayer(s', x, k) {
        LinkNextKept(s, s', t, e, x, k);
        forall z: nat | InLayer(s', z, k) && Below(s', x, z)
          ensures Reached(s', x, z, k)
        {
          SuccessorKept(s, s', t, e, x, z, k);
        }
      }
    }
    forall x: nat, y: nat, k: nat
      ensures KeyOnce(s', x, y, k)
    {
      KeyOnceKept(s, s', t, e, x, y, k);
    }
  }

  // ---- What one sees when following the links ----

  /** Node x can be reached from the head by following n + 1 links of layer k. */
  ghost predicate Walk(s: State, k: nat, x: nat, n: nat)
    decreases n
  {
    if n == 0 then x != NIL && SkipAt(s, s.head, k) == x
    else exists y: nat :: Walk(s, k, y, n - 1) && x != NIL && SkipAt(s, y, k) == x
  }

  lemma {:induction false} WalkInLayer(s: State, k: nat, x: nat, n: nat)
    requires Layers(s) && k < NodeAt(s, s.head).height && Walk(s, k, x, n)
    ensures InLayer(s, x, k) && !NodeAt(s, x).isHead
    decreases n
  {
    hide NodeAt, SkipAt, NodeShape, LinkUp, KeyOnce, InLayer, Below;
    HeadIn(s, k);
    if n == 0 {
      assert LinkNext(s, s.head, k);
      NextIsNoHead(s, s.head, k);
    } else {
      var y: nat :| Walk(s, k, y, n - 1) && x != NIL && SkipAt(s, y, k) == x;
      WalkInLayer(s, k, y, n - 1);
      assert LinkNext(s, y, k);
      NextIsNoHead(s, y, k);
    }
  }

  /** Walking further leads strictly upwards. */
  lemma {:induction false} WalkIsSorted(s: State, k: nat, x: nat, n: nat, y: nat)
    requires Layers(s) && k < NodeAt(s, s.head).height && Walk(s, k, x, n) && SkipAt(s, x, k) == y && y != NIL
    ensures NodeAt(s, x).key < NodeAt(s, y).key
  {
    hide SkipAt, NodeShape, LinkUp, KeyOnce, InLayer, LinkNext;
    WalkInLayer(s, k, x, n);
    NextIsNoHead(s, x, k);
  }

  /** The nodes of layer k above y and not above x. */
  ghost function Ahead(s: State, y: nat, x: nat, k: nat): set<nat> {
    set z: nat | z < |s.nodes| && InLayer(s, z, k) && Below(s, y, z) && (z == x || Below(s, z, x))
  }

  lemma {:induction false} WalkOn(s: State, k: nat, y: nat, n: nat, x: nat)
    requires Layers(s) && k < NodeAt(s, s.head).height && Walk(s, k, y, n) && InLayer(s, x, k) && Below(s, y, x)
    ensures exists m: nat :: Walk(s, k, x, m)
    decreases Ahead(s, y, x, k)
  {
    hide NodeAt, SkipAt, NodeShape, LinkUp, KeyOnce, InLayer, LinkNext;
    WalkInLayer(s, k, y, n);
    NextReached(s, y, x, k);
    var z := SkipAt(s, y, k);
    assert Walk(s, k, z, n + 1);
    if z != x {
      WalkInLayer(s, k, z, n + 1);
      InRange(s, z, k);
      NextIsNoHead(s, y, k);
      BelowIrreflexive(s, z);
      assert z in Ahead(s, y, x, k) && z !in Ahead(s, z, x, k);
      assert Ahead(s, z, x, k) <= Ahead(s, y, x, k);
      WalkOn(s, k, z, n + 1, x);
    }
  }

  /** Following the links of a layer from the head passes exactly the nodes in the layer. */
  lemma {:induction false} WalkIsLayer(s: State, k: nat, x: nat)
    requires Layers(s) && k < NodeAt(s, s.head).height && !NodeAt(s, x).isHead
    ensures (exists n: nat :: Walk(s, k, x, n)) <==> InLayer(s, x, k)
  {
    hide NodeAt, SkipAt, NodeShape, LinkUp, KeyOnce, InLayer, LinkNext, Below, Reached;
    if n: nat :| Walk(s, k, x, n) { WalkInLayer(s, k, x, n); }
    if InLayer(s, x, k) {
      HeadIn(s, k);
      HeadBelow(s, x);
      NextReached(s, s.head, x, k);
      FirstStep(s, k, x);
    }
  }

  lemma {:induction false} HeadBelow(s: State, x: nat)
    requires Layers(s) && !NodeAt(s, x).isHead
    ensures Below(s, s.head, x)
  {
    hide NodeAt, SkipAt, NodeShape, LinkUp, KeyOnce, InLayer, LinkNext;
  }

  lemma {:induction false} FirstStep(s: State, k: nat, x: nat)
    requires Layers(s) && k < NodeAt(s, s.head).height && InLayer(s, x, k) && Reached(s, s.head, x, k)
    ensures exists m: nat :: Walk(s, k, x, m)
  {
    hide NodeAt, SkipAt, NodeShape, LinkUp, KeyOnce, InLayer, LinkNext, Below;
    var z := SkipAt(s, s.head, k);
    assert Walk(s, k, z, 0);
    if z != x { WalkOn(s, k, z, 0, x); }
  }

  /** Each layer is contained in the layer below. */
  lemma {:induction false} LayersAreNested(s: State, k: nat, x: nat, n: nat)
    requires Layers(s) && k + 1 < NodeAt(s, s.head).height && Walk(s, k + 1, x, n)
    ensures exists m: nat :: Walk(s, k, x, m)
  {
    hide NodeAt, SkipAt, NodeShape, LinkUp, KeyOnce, LinkNext, Below, Walk;
    WalkInLayer(s, k + 1, x, n);
    assert InLayer(s, x, k);
    WalkIsLayer(s, k, x);
  }
}
