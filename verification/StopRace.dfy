/** The one way a walk can hand out a result out of order: the stop flag goes up while a call
    of `next` is waiting, the workers leave, and the call falls back to whatever is buffered. */
module StopRace {
  import opened IndexPaths
  import opened Trees
  import opened Heaps
  import opened Folds
  import opened Protocol
  import opened Accounting
  import opened Ordering
  import opened Safety
  import opened Tightness
  import OM = OrderedMatching

  const FIRST := Dir(ReadErr(0), [])
  const SECOND := Dir(ReadErr(1), [])
  const ROOT := Dir(ReadOk([RowOk("a", 1, Some(FIRST)), RowOk("b", 1, Some(SECOND))]), [FIRST, SECOND])
  const CONFIG := Config(ROOT, 2, 4, 1)

  const ROOT_SPEC := Spec(ROOT, [0], ROOT_WEIGHT)
  const FIRST_SPEC := Spec(FIRST, [0, 0], ROOT_WEIGHT + 1)
  const SECOND_SPEC := Spec(SECOND, [0, 1], ROOT_WEIGHT + 1)

  const ROOT_RESULT := Ordered(ROOT, [0], 2)
  const SECOND_RESULT := Ordered(SECOND, [0, 1], 0)
  const AWAITING_FIRST := OM.Matcher([0, 0], [0, 2])
  const NOT_CALLED := Reorder(Top, [], OM.START, [], false)

  // ---- The states on the way ----

  const ROOT_TAKEN := State(
    Shared([], [], 1, [], false, false, [0, 0]), [Started(ROOT_SPEC), Idle], NOT_CALLED)

  const ONE_SENT := State(
    Shared([FIRST_SPEC], [], 2, [], false, false, [1, 0]), [Streaming(ROOT_SPEC, 1), Idle], NOT_CALLED)

  const CHILDREN_SENT := State(
    Shared([FIRST_SPEC, SECOND_SPEC], [], 3, [], false, false, [2, 0]), [Streaming(ROOT_SPEC, 2), Idle], NOT_CALLED)

  const ROOT_REPORTED := State(
    Shared([FIRST_SPEC, SECOND_SPEC], [], 2, [ROOT_RESULT], false, false, [2, 0]), [Idle, Idle], NOT_CALLED)

  /** The first worker has the first child, and the second child waits in the heap. */
  const FIRST_TAKEN := State(
    Shared([], [SECOND_SPEC], 2, [ROOT_RESULT], false, false, [0, 0]), [Started(FIRST_SPEC), Idle], NOT_CALLED)

  const SECOND_TAKEN := State(
    Shared([], [], 2, [ROOT_RESULT], false, false, [0, 0]), [Started(FIRST_SPEC), Started(SECOND_SPEC)], NOT_CALLED)

  /** The second worker has finished the second child. */
  const SECOND_DONE := State(
    Shared([], [], 1, [ROOT_RESULT, SECOND_RESULT], false, false, [0, 0]), [Started(FIRST_SPEC), Idle], NOT_CALLED)

  /** The consumer, with a buffer limit of one, has received the root first and handed it out. */
  const ROOT_HANDED_OUT := State(
    Shared([], [], 1, [SECOND_RESULT], false, false, [0, 0]), [Started(FIRST_SPEC), Idle],
    Reorder(Top, [], AWAITING_FIRST, [ROOT_RESULT], false))

  /** It waits for the first child. */
  const WAITING_FOR_FIRST := State(
    Shared([], [], 1, [], false, false, [0, 0]), [Started(FIRST_SPEC), Idle],
    Reorder(ConsumerPc.Waiting, [SECOND_RESULT], AWAITING_FIRST, [ROOT_RESULT], false))

  /** After the stop both workers have left, the first one without reading its directory. */
  const ALL_LEFT := State(
    Shared([], [], 0, [], true, false, [0, 0]), [Exited, Exited], WAITING_FOR_FIRST.reorder)

  /** And the call under way has handed out the second child. */
  const STRAYED := State(
    ALL_LEFT.shared, ALL_LEFT.workers,
    Reorder(Top, [], AWAITING_FIRST, [ROOT_RESULT, SECOND_RESULT], true))

  // ---- The run ----

  /** A worker's move to the given state. */
  lemma {:induction false} Moves(s: State, w: nat, s': State)
    requires Reachable(CONFIG, s) && w < |s.workers| == |s'.workers| && s'.reorder == s.reorder
    requires WorkerMoves(CONFIG, w, IteratorFree(s.workers), s.shared, s.workers[w], s'.shared, s'.workers[w])
    requires s'.workers == s.workers[w := s'.workers[w]]
    ensures Reachable(CONFIG, s')
  {
    assert WorkerStep(CONFIG, s, w, s');
    ReachStep(CONFIG, s, Worker(w), s');
  }

  function At(s: State, w: nat, pc: Pc): State
    requires w < |s.workers|
  {
    s.(workers := s.workers[w := pc])
  }

  /** A worker enters the work iterator, receives what is in the channel, and takes the top. */
  lemma {:induction false} Pulls(s: State, w: nat, heap: seq<Spec>, i: nat)
    requires Reachable(CONFIG, s) && w < |s.workers| && s.workers[w] == Idle && IteratorFree(s.workers)
    requires !s.shared.stop && |s.shared.pushed| == 2 && |s.shared.chan| <= 2
    requires heap == s.shared.heap + s.shared.chan && SpecTop(heap, i)
    ensures Reachable(CONFIG, State(s.shared.(chan := [], heap := Without(heap, i), pushed := [0, 0]),
                                    s.workers[w := Started(heap[i])], s.reorder))
  {
    Moves(s, w, At(s, w, Pulling(AtTop)));
    var s1 := At(s, w, Pulling(Drain));
    Moves(At(s, w, Pulling(AtTop)), w, s1);
    var s2 := Drained(s1, w);
    assert s2.shared.heap == heap;
    var h := s2.shared.(pushed := seq(|s2.shared.pushed|, _ => 0));
    assert h.pushed == [0, 0];
    var s3 := Go(CONFIG, s2, w, h, Pulling(Check));
    var s4 := Go(CONFIG, s3, w, h.(heap := Without(h.heap, i)), Started(h.heap[i]));
    assert s4.workers == s.workers[w := Started(heap[i])];
  }

  lemma {:induction false} Drained(s: State, w: nat) returns (s': State)
    requires Reachable(CONFIG, s) && w < |s.workers| && s.workers[w] == Pulling(Drain)
    ensures Reachable(CONFIG, s')
    ensures s' == s.(shared := s.shared.(chan := [], heap := s.shared.heap + s.shared.chan))
    decreases |s.shared.chan|
  {
    s' := s;
    if s.shared.chan != [] {
      var next := s.(shared := Received(s.shared));
      Moves(s, w, next);
      s' := Drained(next, w);
      assert s.shared.heap + [s.shared.chan[0]] + s.shared.chan[1..] == s.shared.heap + s.shared.chan;
    }
  }

  lemma {:induction false} RootTaken()
    ensures Reachable(CONFIG, ROOT_TAKEN)
  {
    var s := ReachInit(CONFIG);
    assert s.workers == [Idle, Idle] && s.shared.pushed == [0, 0];
    SliceCmpFlips([0], [0]);
    assert s.shared.heap + s.shared.chan == [ROOT_SPEC];
    Pulls(s, 0, [ROOT_SPEC], 0);
  }

  lemma {:induction false} RootsChildren()
    ensures StreamedChild(ROOT_SPEC, 0) == FIRST_SPEC && StreamedChild(ROOT_SPEC, 1) == SECOND_SPEC
  {
    assert [0] + [0] == [0, 0] && [0] + [1] == [0, 1];
  }

  lemma {:induction false} OneSent()
    ensures Reachable(CONFIG, ONE_SENT)
  {
    RootTaken();
    RootsChildren();
    var s1 := Go(CONFIG, ROOT_TAKEN, 0, ROOT_TAKEN.shared, Streaming(ROOT_SPEC, 0));
    var s2 := Go(CONFIG, s1, 0, s1.shared.(pending := 2), StreamSend(ROOT_SPEC, 0));
    var s3 := Go(CONFIG, s2, 0, s2.shared.(chan := [] + [FIRST_SPEC], pushed := [1, 0]), Streaming(ROOT_SPEC, 1));
    assert s3 == ONE_SENT;
  }

  lemma {:induction false} ChildrenSent()
    ensures Reachable(CONFIG, CHILDREN_SENT)
  {
    OneSent();
    RootsChildren();
    var s1 := Go(CONFIG, ONE_SENT, 0, ONE_SENT.shared.(pending := 3), StreamSend(ROOT_SPEC, 1));
    var chan := [FIRST_SPEC] + [SECOND_SPEC];
    var s2 := Go(CONFIG, s1, 0, s1.shared.(chan := chan, pushed := [2, 0]), Streaming(ROOT_SPEC, 2));
    assert s2 == CHILDREN_SENT;
  }

  lemma {:induction false} RootReported()
    ensures Reachable(CONFIG, ROOT_REPORTED)
  {
    ChildrenSent();
    var s0 := CHILDREN_SENT;
    var s1 := Go(CONFIG, s0, 0, s0.shared, Sending(ROOT_SPEC, 2));
    var s2 := Go(CONFIG, s1, 0, s1.shared.(results := [] + [ROOT_RESULT]), Completing);
    var s3 := Go(CONFIG, s2, 0, s2.shared.(pending := 2), Idle);
    assert s3 == ROOT_REPORTED;
  }

  lemma {:induction false} FirstIsTop()
    ensures SpecTop([FIRST_SPEC, SECOND_SPEC], 0)
  {
    SpecTopIsLightest([FIRST_SPEC, SECOND_SPEC], 0);
    SiblingsBefore([0], 0, [], 1, []);
    assert [0] + [0] + [] == [0, 0] && [0] + [1] + [] == [0, 1];
  }

  lemma {:induction false} TakesFirst(s: State)
    requires Reachable(CONFIG, s) && s.workers == [Idle, Idle] && !s.shared.stop && |s.shared.pushed| == 2
    requires s.shared.chan == [FIRST_SPEC, SECOND_SPEC] && s.shared.heap == []
    ensures Reachable(CONFIG, State(s.shared.(chan := [], heap := [SECOND_SPEC], pushed := [0, 0]),
                                    [Started(FIRST_SPEC), Idle], s.reorder))
  {
    var heap := s.shared.chan;
    FirstIsTop();
    assert [] + heap == heap && Without(heap, 0) == [SECOND_SPEC];
    Pulls(s, 0, heap, 0);
    assert s.workers[0 := Started(heap[0])] == [Started(FIRST_SPEC), Idle];
  }

  lemma {:induction false} FirstTaken()
    ensures Reachable(CONFIG, FIRST_TAKEN)
  {
    RootReported();
    TakesFirst(ROOT_REPORTED);
  }

  lemma {:induction false} SecondTaken()
    ensures Reachable(CONFIG, SECOND_TAKEN)
  {
    FirstTaken();
    SliceCmpFlips([0, 1], [0, 1]);
    assert [SECOND_SPEC] + [] == [SECOND_SPEC] && Without([SECOND_SPEC], 0) == [];
    Pulls(FIRST_TAKEN, 1, [SECOND_SPEC], 0);
    assert FIRST_TAKEN.workers[1 := Started(SECOND_SPEC)] == SECOND_TAKEN.workers;
  }

  lemma {:induction false} SecondDone()
    ensures Reachable(CONFIG, SECOND_DONE)
  {
    SecondTaken();
    var s0 := SECOND_TAKEN;
    var s1 := Go(CONFIG, s0, 1, s0.shared, Sending(SECOND_SPEC, 0));
    var s2 := Go(CONFIG, s1, 1, s1.shared.(results := [ROOT_RESULT] + [SECOND_RESULT]), Bulk(SECOND_SPEC, 0));
    var s3 := Go(CONFIG, s2, 1, s2.shared, Completing);
    var s4 := Go(CONFIG, s3, 1, s3.shared.(pending := 1), Idle);
    assert s4 == SECOND_DONE;
  }

  /** The consumer's move to the given state. */
  lemma {:induction false} Consumes(s: State, s': State)
    requires Reachable(CONFIG, s) && ConsumerStep(CONFIG, s, s')
    ensures Reachable(CONFIG, s')
  {
    ReachStep(CONFIG, s, Consumer, s');
  }

  lemma {:induction false} RootHandedOut()
    ensures Reachable(CONFIG, ROOT_HANDED_OUT)
  {
    SecondDone();
    var h, workers := SECOND_DONE.shared, SECOND_DONE.workers;
    var s1 := State(h, workers, NOT_CALLED.(pc := Draining));
    Consumes(SECOND_DONE, s1);
    var s2 := State(h.(results := [SECOND_RESULT]), workers, s1.reorder.(buffer := [] + [ROOT_RESULT]));
    assert h.results[1..] == [SECOND_RESULT];
    Consumes(s1, s2);
    var s3 := State(s2.shared, workers, s2.reorder.(pc := Checking));
    Consumes(s2, s3);
    SliceCmpFlips([0], [0]);
    assert ResultTop(s3.reorder.buffer, 0) && s3.reorder.buffer[0].path == [0];
    assert OM.Advance(OM.START, 2) == AWAITING_FIRST;
    assert YieldStep(s3.reorder, ROOT_HANDED_OUT.reorder) by {
      assert Without([ROOT_RESULT], 0) == [] && [] + [ROOT_RESULT] == [ROOT_RESULT];
    }
    Consumes(s3, ROOT_HANDED_OUT);
  }

  lemma {:induction false} WaitsForFirst()
    ensures Reachable(CONFIG, WAITING_FOR_FIRST)
  {
    RootHandedOut();
    var s0, h := ROOT_HANDED_OUT, WAITING_FOR_FIRST.shared;
    var s1 := s0.(reorder := s0.reorder.(pc := Draining));
    Consumes(s0, s1);
    assert s1.shared.results[1..] == [];
    var s2 := State(h, s1.workers, s1.reorder.(buffer := [] + [SECOND_RESULT]));
    Consumes(s1, s2);
    var s3 := s2.(reorder := s2.reorder.(pc := Checking));
    Consumes(s2, s3);
    Consumes(s3, WAITING_FOR_FIRST);
  }

  lemma {:induction false} AllLeft()
    ensures Reachable(CONFIG, ALL_LEFT)
  {
    WaitsForFirst();
    var s := WAITING_FOR_FIRST.(shared := WAITING_FOR_FIRST.shared.(stop := true));
    assert OwnerStep(WAITING_FOR_FIRST, s);
    ReachStep(CONFIG, WAITING_FOR_FIRST, Owner, s);
    var s1 := Go(CONFIG, s, 0, s.shared, Completing);
    var s2 := Go(CONFIG, s1, 0, s1.shared.(pending := 0), Idle);
    var s3 := Go(CONFIG, s2, 0, s2.shared, Pulling(AtTop));
    var s4 := Go(CONFIG, s3, 0, s3.shared, Exited);
    var s5 := Go(CONFIG, s4, 1, s4.shared, Pulling(AtTop));
    var s6 := Go(CONFIG, s5, 1, s5.shared, Exited);
    assert s6 == ALL_LEFT;
  }

  /** A stop that comes while the consumer waits can make it hand out the second child without
      the first: then, and (`FallbackNeedsStop`) only then, the output is no prefix of the preorder. */
  lemma {:induction false} StopCanDisorder()
    ensures Reachable(CONFIG, STRAYED)
    ensures Output(STRAYED) == [ROOT.read, SECOND.read] && !(Output(STRAYED) <= Reads(Nodes(CONFIG)))
  {
    AllLeft();
    SliceCmpFlips([0, 1], [0, 1]);
    assert ResultTop(ALL_LEFT.reorder.buffer, 0);
    assert FallbackStep(ALL_LEFT.reorder, STRAYED.reorder) by {
      assert Without([SECOND_RESULT], 0) == [] && [ROOT_RESULT] + [SECOND_RESULT] == [ROOT_RESULT, SECOND_RESULT];
    }
    Consumes(ALL_LEFT, STRAYED);
    SecondNode();
  }

  lemma {:induction false} SecondNode()
    ensures |Nodes(CONFIG)| > 1 && Nodes(CONFIG)[1].tree == FIRST
  {
    assert Kids(Parallel, ROOT) == [FIRST, SECOND];
    var rest := PreKids(Parallel, ROOT, [0], 0);
    assert Nodes(CONFIG) == [Node([0], ROOT)] + rest;
    assert rest == Pre(Parallel, FIRST, [0] + [0]) + PreKids(Parallel, ROOT, [0], 1);
    assert rest[0].tree == FIRST;
  }
}
