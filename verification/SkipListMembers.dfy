/** The skip list as a set: a key is a member from the step that completes its node to the step that marks it. What one
    sees when following links that may have been overtaken is something that was there while one was searching. */
module SkipListMembers {
  import opened Wrappers
  import opened SkipList
  import opened SkipListLayers
  import opened SkipListThreads
  import opened SkipListSafety

  /** A complete and unmarked node of the key is in the bottom layer. */
  ghost predicate Member(s: State, key: int) {
    exists x: nat :: IsMember(s, x, key)
  }

  ghost predicate IsMember(s: State, x: nat, key: int) {
    && InLayer(s, x, 0) && !NodeAt(s, x).isHead && NodeAt(s, x).key == key
    && NodeAt(s, x).fullyLinked && !NodeAt(s, x).marked
  }

  // ---- Each operation takes effect in one step ----

  /** The step at which an add takes effect, and the one at which a remove does. */
  predicate Completes(s: State, t: nat, key: int) {
    t < |s.threads| && s.threads[t].phase == SetLinked && s.threads[t].data == key
  }

  predicate Discards(s: State, t: nat, key: int) {
    t < |s.threads| && s.threads[t].phase == MarkTarget && s.threads[t].data == key
  }

  /** An unmarked node is in every layer it was ever linked in, unless it is a head. */
  lemma {:induction false} UnmarkedIsIn(s: State, x: nat, k: nat)
    requires Layers(s) && EverLinked(s, x, k) && !NodeAt(s, x).isHead && !NodeAt(s, x).marked
    ensures InLayer(s, x, k)
  {
    hide SkipAt, LinkUp, LinkNext, KeyOnce;
    assert NodeShape(s, x);
  }

  /** A node that is not complete is not marked, so it is still where it was linked. */
  lemma {:induction false} IncompleteIsIn(s: State, x: nat, k: nat)
    requires Layers(s) && EverLinked(s, x, k) && !NodeAt(s, x).isHead && !NodeAt(s, x).fullyLinked
    ensures InLayer(s, x, k)
  {
    hide SkipAt, LinkUp, LinkNext, KeyOnce;
    assert NodeShape(s, x);
  }

  /** A complete and unmarked node is in all its layers. */
  lemma {:induction false} MemberIsIn(s: State, x: nat, key: int, k: nat)
    requires Layers(s) && IsMember(s, x, key) && k < NodeAt(s, x).height
    ensures InLayer(s, x, k)
    ensures NodeAt(s, x).height <= NodeAt(s, s.head).height
  {
    hide SkipAt, LinkUp, LinkNext, KeyOnce;
    assert NodeShape(s, x);
  }

  /** While an incomplete or a marked node of the key is in the bottom layer, the key is no member. */
  lemma {:induction false} OtherwiseNoMember(s: State, x: nat, key: int)
    requires Layers(s) && InLayer(s, x, 0) && !NodeAt(s, x).isHead && NodeAt(s, x).key == key
    requires !NodeAt(s, x).fullyLinked || NodeAt(s, x).marked
    ensures !Member(s, key)
  {
    hide NodeAt, SkipAt, Layers, InLayer;
    if y: nat :| IsMember(s, y, key) { SameNodeOfKey(s, x, y); }
  }

  lemma {:induction false} NoKeyNoMember(s: State, key: int)
    requires !HasKey(s, key)
    ensures !Member(s, key)
  {
    hide NodeAt, InLayer;
  }

  /** The bottom layer and the set differ exactly in the keys of nodes that are incomplete or marked. */
  lemma {:induction false} UnfinishedKeys(s: State, key: int)
    requires Layers(s)
    ensures HasKey(s, key) && !Member(s, key) <==> Unfinished(s, key)
    ensures Member(s, key) ==> HasKey(s, key)
  {
    hide NodeAt, SkipAt, Layers, InLayer;
    if x: nat :| InLayer(s, x, 0) && !NodeAt(s, x).isHead && NodeAt(s, x).key == key &&
                 (!NodeAt(s, x).fullyLinked || NodeAt(s, x).marked) {
      OtherwiseNoMember(s, x, key);
    }
    if x: nat :| InLayer(s, x, 0) && !NodeAt(s, x).isHead && NodeAt(s, x).key == key {
      assert IsMember(s, x, key) || NodeAt(s, x).marked || !NodeAt(s, x).fullyLinked;
    }
  }

  ghost predicate Unfinished(s: State, key: int) {
    exists x: nat :: InLayer(s, x, 0) && !NodeAt(s, x).isHead && NodeAt(s, x).key == key &&
                     (!NodeAt(s, x).fullyLinked || NodeAt(s, x).marked)
  }

  /** A step that neither completes nor marks a node of the key leaves the members alone. */
  lemma {:induction false} SameMember(s: State, s': State, t: nat, e: Effect, x: nat, key: int)
    requires Changed(s, s', t, e) && x < |s.nodes|
    requires !((e.SetFullyLinked? || e.SetMarked?) && !NodeAt(s, e.x).isHead && NodeAt(s, e.x).key == key)
    ensures IsMember(s', x, key) ==> IsMember(s, x, key)
    ensures IsMember(s, x, key) ==> IsMember(s', x, key)
  {
    hide NodeAt, SkipAt, LinkUp, LinkNext, KeyOnce, Below, LinkOk, HeadOk;
    assert NodeShape(s, x);
    MemberIsLinked(s, x);
  }

  lemma {:induction false} MemberIsLinked(s: State, x: nat)
    ensures !NodeAt(s, x).isHead ==> (InLayer(s, x, 0) <==> 0 < NodeAt(s, x).links && 0 < NodeAt(s, x).kept)
  {
    hide NodeAt;
  }

  lemma {:induction false} CompletionAdds(s: State, s': State, t: nat, e: Effect)
    requires Changed(s, s', t, e) && e.SetFullyLinked? && !NodeAt(s, e.x).isHead && NodeAt(s, e.x).links > 0
    requires !NodeAt(s, e.x).fullyLinked
    ensures !Member(s, NodeAt(s, e.x).key) && Member(s', NodeAt(s, e.x).key)
  {
    hide NodeAt, SkipAt, Layers, InLayer;
    IncompleteIsIn(s, e.x, 0);
    OtherwiseNoMember(s, e.x, NodeAt(s, e.x).key);
    CompletedIs(s, s', t, e);
  }

  lemma {:induction false} CompletedIs(s: State, s': State, t: nat, e: Effect)
    requires Changed(s, s', t, e) && e.SetFullyLinked? && !NodeAt(s, e.x).isHead && NodeAt(s, e.x).links > 0
    requires !NodeAt(s, e.x).fullyLinked
    ensures IsMember(s', e.x, NodeAt(s, e.x).key)
  {
    hide NodeAt, SkipAt, LinkUp, LinkNext, KeyOnce;
    assert NodeShape(s, e.x);
  }

  lemma {:induction false} MarkRemoves(s: State, s': State, t: nat, e: Effect)
    requires Changed(s, s', t, e) && Layers(s') && e.SetMarked? && !NodeAt(s, e.x).isHead && NodeAt(s, e.x).links > 0
    requires !NodeAt(s, e.x).marked
    ensures Member(s, NodeAt(s, e.x).key) && !Member(s', NodeAt(s, e.x).key)
  {
    hide NodeAt, SkipAt, Layers, InLayer;
    UnmarkedIsIn(s, e.x, 0);
    MarkedWas(s, s', t, e);
    OtherwiseNoMember(s', e.x, NodeAt(s, e.x).key);
  }

  lemma {:induction false} MarkedWas(s: State, s': State, t: nat, e: Effect)
    requires Changed(s, s', t, e) && e.SetMarked? && !NodeAt(s, e.x).isHead && InLayer(s, e.x, 0) &&
             !NodeAt(s, e.x).marked
    ensures IsMember(s, e.x, NodeAt(s, e.x).key)
    ensures InLayer(s', e.x, 0) && !NodeAt(s', e.x).isHead && NodeAt(s', e.x).key == NodeAt(s, e.x).key &&
            NodeAt(s', e.x).marked
  {
    hide NodeAt, SkipAt, Layers, LinkOk, HeadOk;
  }

  lemma {:induction false} MembersStay(s: State, s': State, t: nat, e: Effect, key: int)
    requires Changed(s, s', t, e)
    requires !((e.SetFullyLinked? || e.SetMarked?) && !NodeAt(s, e.x).isHead && NodeAt(s, e.x).key == key)
    ensures Member(s', key) == Member(s, key)
  {
    hide NodeAt, SkipAt, Layers, InLayer, Changed;
    if x: nat :| IsMember(s, x, key) {
      InRange(s, x, 0);
      SameMember(s, s', t, e, x, key);
    }
    if x: nat :| IsMember(s', x, key) {
      Entered(s, s', t, e, x, 0);
      SameMember(s, s', t, e, x, key);
    }
  }

  lemma {:induction false} MemberPhases(s: State, t: nat, choice: Choice)
    requires t < |s.threads|
    ensures var th := s.threads[t]; var e := Action(s, t, th, choice).1;
            && (e.SetFullyLinked? <==> th.phase == SetLinked) && (e.SetFullyLinked? ==> e.x == th.target)
            && (e.SetMarked? <==> th.phase == MarkTarget || th.phase == GrowMark)
            && (e.SetMarked? ==> e.x == if th.phase == MarkTarget then th.target else th.oldHead)
  {
    hide NodeAt, SkipAt, At;
  }

  /** What is known of the node that is completed or marked. */
  lemma {:induction false} MemberTarget(s: State, t: nat)
    requires Known(s, t)
    ensures var th := s.threads[t];
            && (th.phase == SetLinked || th.phase == MarkTarget ==>
                  !NodeAt(s, th.target).isHead && NodeAt(s, th.target).key == th.data && NodeAt(s, th.target).links > 0
                  && !NodeAt(s, th.target).marked && NodeAt(s, th.target).fullyLinked == (th.phase == MarkTarget))
            && (th.phase == GrowMark ==> NodeAt(s, th.oldHead).isHead)
  {
    hide NodeAt, SkipAt, At, LinkUp, LinkNext, KeyOnce, SearchOk, ValidOk, HeldOk, LockOk, OldHead;
    assert NodeShape(s, s.threads[t].target);
  }

  /** The list is a set: an add makes its key a member, which it was not, by completing its node, and a remove ends that
      by marking it; no other step of any thread changes the members. */
  lemma {:induction false} MembersAreAtomic(run: seq<State>, n: nat, t: nat, choice: Choice, key: int)
    requires Reachable(run) && n + 1 < |run| && t < |run[n].threads| && run[n + 1] == Step(run[n], t, choice)
    ensures Completes(run[n], t, key) ==> !Member(run[n], key) && Member(run[n + 1], key)
    ensures Discards(run[n], t, key) ==> Member(run[n], key) && !Member(run[n + 1], key)
    ensures !Completes(run[n], t, key) && !Discards(run[n], t, key) ==> Member(run[n + 1], key) == Member(run[n], key)
  {
    hide Inv, Reachable, Step, Known, Member, Action, Moved, NodeAt, Changed;
    RunKeepsInv(run, n);
    RunKeepsLayers(run, n + 1);
    InvKnown(run[n], t);
    StepMoves(run[n], t, choice);
    MovedIsChange(run[n], run[n + 1], t, choice);
    MemberPhases(run[n], t, choice);
    MemberTarget(run[n], t);
    var e := Action(run[n], t, run[n].threads[t], choice).1;
    if Completes(run[n], t, key) {
      CompletionAdds(run[n], run[n + 1], t, e);
    } else if Discards(run[n], t, key) {
      MarkRemoves(run[n], run[n + 1], t, e);
    } else {
      MembersStay(run[n], run[n + 1], t, e, key);
    }
  }
}
