/** What a stop does to the output: a flag that goes up between two calls of `next` leaves a
    prefix of the preorder, and from which states inside a call it may not. */
module Stops {
  import opened Trees
  import opened Heaps
  import opened Folds
  import opened Protocol
  import opened Accounting
  import opened Ordering
  import opened Safety
  import opened Bounds
  import opened Fairness
  import opened Tightness
  import OM = OrderedMatching

  // ---- Stops between two calls ----

  /** No call of `next` is under way, or it is at the test of the flag. */
  predicate BetweenCalls(pc: ConsumerPc) {
    pc.Top? || pc.Done?
  }

  /** Whoever raises the flag does so between two calls, as everyone does who needs the iterator
      for it: dropping it excludes a call of `next`, and at start-up there is none yet. */
  ghost predicate Polite(run: seq<State>) {
    forall i | 0 <= i < |run| - 1 && !run[i].shared.stop && run[i + 1].shared.stop ::
      BetweenCalls(run[i].reorder.pc)
  }

  ghost predicate Undisturbed(s: State) {
    !s.reorder.stray && (s.shared.stop ==> BetweenCalls(s.reorder.pc))
  }

  lemma {:induction false} PoliteStep(c: Config, s: State, a: Actor, s': State)
    requires Sensible(c) && Inv(c, s) && Step(c, s, a, s') && Undisturbed(s)
    requires !s.shared.stop && s'.shared.stop ==> BetweenCalls(s.reorder.pc)
    ensures Undisturbed(s')
  {
    InvStep(c, s, a, s');
  }

  lemma {:induction false} PoliteRun(c: Config, run: seq<State>)
    requires Sensible(c) && IsRun(c, run) && Polite(run)
    ensures Undisturbed(run[|run| - 1])
  {
    if |run| > 1 {
      var before, a := LastStep(c, run);
      assert Polite(before);
      PoliteRun(c, before);
      InvRun(c, before);
      PoliteStep(c, before[|before| - 1], a, run[|before|]);
    }
  }

  /** Every stop raised between two calls, at any moment of any run, leaves a prefix of the
      preorder, and with aligned streaming of the serial walker's output. */
  lemma {:induction false} PoliteStopLeavesPrefix(c: Config, run: seq<State>)
    requires Sensible(c) && IsRun(c, run) && Polite(run)
    ensures var s := run[|run| - 1];
            && !s.reorder.stray
            && HandedOut(c, s.reorder.yielded, |s.reorder.yielded|)
            && Output(s) <= Reads(Nodes(c))
            && (Aligned(c.root) ==> Output(s) <= SerialOutput(c))
  {
    var s := run[|run| - 1];
    PoliteRun(c, run);
    assert Reachable(c, s);
    StoppedOutput(c, s);
    SameWalkIffAligned(c.root, [0]);
  }

  // ---- Stops inside a call ----

  /** The result of a worker that is past the stop test and has not sent it yet. */
  predicate OwesResult(pc: Pc) {
    pc.Streaming? || pc.StreamSend? || pc.Sending?
  }

  const OWES: Pc -> nat := (pc: Pc) => if OwesResult(pc) then 1 else 0

  /** The results that can still come in after a stop. */
  function Outstanding(s: State): nat {
    |s.shared.results| + SumOver(s.workers, OWES)
  }

  /** The awaited directory is not among the results that are there or can still come in. */
  ghost predicate NoneAwaited(s: State) {
    var awaited := s.reorder.matcher.lookingFor;
    && (forall r | r in s.reorder.buffer :: r.path != awaited)
    && (forall r | r in s.shared.results :: r.path != awaited)
    && (forall pc | pc in s.workers && OwesResult(pc) :: pc.spec.path != awaited)
  }

  /** The call under way may end in the fallback: something can be handed out, nothing of it is
      awaited, and all of it fits in the buffer before the call waits. */
  ghost predicate MayStray(c: Config, s: State) {
    && s.shared.stop && !s.reorder.stray && !BetweenCalls(s.reorder.pc)
    && |s.reorder.buffer| + Outstanding(s) > 0 && NoneAwaited(s)
    && (|| Outstanding(s) == 0
        || (s.reorder.pc.Draining? && |s.reorder.buffer| + Outstanding(s) <= c.maxBuffer))
  }

  ghost predicate IsPath(c: Config, path: seq<State>) {
    path != [] && forall i | 0 <= i < |path| - 1 :: Next(c, path[i], path[i + 1])
  }

  /** Some way on from `s` hands out a result out of order. */
  ghost predicate CanStray(c: Config, s: State) {
    exists path: seq<State> :: IsPath(c, path) && path[0] == s && path[|path| - 1].reorder.stray
  }

  /** Holds in every reachable state. */
  ghost predicate DroppedIsDone(s: State) {
    s.shared.receiverGone ==> s.reorder.pc.Done?
  }

  lemma {:induction false} DroppedIsDoneStep(c: Config, s: State, a: Actor, s': State)
    requires DroppedIsDone(s) && Step(c, s, a, s')
    ensures DroppedIsDone(s')
  {
    if a.Worker? {
      var w := a.id;
      assert s'.shared.receiverGone == s.shared.receiverGone by {
        ReceiverKept(c, w, IteratorFree(s.workers), s.shared, s.workers[w], s'.shared, s'.workers[w]);
      }
    }
  }

  lemma {:induction false} ReceiverKept(c: Config, w: nat, free: bool, h: Shared, pc: Pc, h': Shared, pc': Pc)
    requires WorkerMoves(c, w, free, h, pc, h', pc')
    ensures h'.receiverGone == h.receiverGone && h'.stop == h.stop
  {
  }

  lemma {:induction false} DroppedIsDoneRun(c: Config, run: seq<State>)
    requires IsRun(c, run)
    ensures DroppedIsDone(run[|run| - 1])
  {
    if |run| > 1 {
      var before, a := LastStep(c, run);
      DroppedIsDoneRun(c, before);
      DroppedIsDoneStep(c, before[|before| - 1], a, run[|run| - 1]);
    }
  }

  lemma {:induction false} DroppedIsDoneReachable(c: Config, s: State)
    requires Reachable(c, s)
    ensures DroppedIsDone(s)
  {
    var run :| IsRun(c, run) && run[|run| - 1] == s;
    DroppedIsDoneRun(c, run);
  }

  /** After a stop a worker's step at most moves the result it owes into the channel. */
  lemma {:induction false} WorkerKeepsOutstanding(c: Config, w: nat, free: bool, h: Shared, pc: Pc, h': Shared, pc': Pc)
    requires WorkerMoves(c, w, free, h, pc, h', pc') && h.stop && !h.receiverGone
    ensures h'.stop && !h'.receiverGone && |h'.results| + OWES(pc') == |h.results| + OWES(pc)
    ensures h'.results == h.results
            || (pc.Sending? && h'.results == h.results + [Result(pc.spec, pc.sent)] && !OwesResult(pc'))
    ensures OwesResult(pc') ==> OwesResult(pc) && pc'.spec == pc.spec
    ensures h'.results == h.results && OwesResult(pc) ==> OwesResult(pc')
  {
  }

  lemma {:induction false} InUpdate<T>(q: seq<T>, w: nat, x: T)
    requires w < |q|
    ensures x in q[w := x] && q[w] in q
    ensures forall y | y in q :: y == q[w] || y in q[w := x]
    ensures forall y | y in q[w := x] :: y == x || y in q
  {
    var q' := q[w := x];
    assert q'[w] == x;
    forall y | y in q ensures y == q[w] || y in q' {
      var i :| 0 <= i < |q| && q[i] == y;
      assert q'[i] == if i == w then x else y;
    }
    forall y | y in q' ensures y == x || y in q {
      var i :| 0 <= i < |q'| && q'[i] == y;
      assert i != w ==> q[i] == y;
    }
  }

  lemma {:induction false} WorkerKeepsAwaited(c: Config, s: State, w: nat, s': State)
    requires WorkerStep(c, s, w, s') && s.shared.stop && !s.shared.receiverGone
    ensures NoneAwaited(s') <==> NoneAwaited(s)
  {
    var pc, pc' := s.workers[w], s'.workers[w];
    WorkerKeepsOutstanding(c, w, IteratorFree(s.workers), s.shared, pc, s'.shared, pc');
    InUpdate(s.workers, w, pc');
    if s'.shared.results != s.shared.results {
      var r := Result(pc.spec, pc.sent);
      assert r in s'.shared.results && r.path == pc.spec.path;
      assert forall x | x in s'.shared.results :: x == r || x in s.shared.results;
      assert forall x | x in s.shared.results :: x in s'.shared.results;
    }
  }

  lemma {:induction false} WorkerKeepsStray(c: Config, s: State, w: nat, s': State)
    requires WorkerStep(c, s, w, s') && s.shared.stop && DroppedIsDone(s)
    ensures MayStray(c, s') <==> MayStray(c, s)
  {
    if !BetweenCalls(s.reorder.pc) {
      WorkerKeepsAwaited(c, s, w, s');
      WorkerKeepsOutstanding(c, w, IteratorFree(s.workers), s.shared, s.workers[w], s'.shared, s'.workers[w]);
      SumUpdate(s.workers, w, s'.workers[w], OWES);
    }
  }

  lemma {:induction false} NothingOwed(workers: seq<Pc>)
    requires Disconnected(workers)
    ensures SumOver(workers, OWES) == 0
  {
    SumZero(workers, OWES);
  }

  /** A consumer that can still stray, or strays now, could stray before. */
  lemma {:induction false} ConsumerBack(c: Config, s: State, s': State)
    requires Inv(c, s) && ConsumerStep(c, s, s') && s.shared.stop && !s.reorder.stray
    requires MayStray(c, s') || s'.reorder.stray
    ensures MayStray(c, s)
  {
    var r, r' := s.reorder, s'.reorder;
    match r.pc
    case Draining =>
      if s'.shared.results != s.shared.results {
        ReceivedBack(s, s');
      }
    case Waiting =>
      if r'.stray {
        NothingOwed(s.workers);
        UnmatchedIsUnbuffered(c, s);
      }
    case _ =>
  }

  lemma {:induction false} ReceivedBack(s: State, s': State)
    requires s.shared.results != [] && s'.shared.results == s.shared.results[1..] && s'.workers == s.workers
    requires s'.reorder.buffer == s.reorder.buffer + [s.shared.results[0]] && s'.reorder.matcher == s.reorder.matcher
    ensures NoneAwaited(s') <==> NoneAwaited(s)
  {
    var first := s.shared.results[0];
    assert s.shared.results == [first] + s'.shared.results;
    assert first in s'.reorder.buffer;
    assert forall r | r in s.reorder.buffer :: r in s'.reorder.buffer;
    assert forall r | r in s'.reorder.buffer :: r == first || r in s.reorder.buffer;
  }

  /** Inside a call, a top that does not match means that the awaited directory is not buffered. */
  lemma {:induction false} UnmatchedIsUnbuffered(c: Config, s: State)
    requires Inv(c, s) && !BetweenCalls(s.reorder.pc) && !TopMatches(s.reorder)
    ensures forall r | r in s.reorder.buffer :: r.path != s.reorder.matcher.lookingFor
  {
    OM.MatcherFollowsPreorder(Parallel, c.root, |s.reorder.yielded|);
    forall r | r in s.reorder.buffer ensures r.path != s.reorder.matcher.lookingFor {
      var i :| 0 <= i < |s.reorder.buffer| && s.reorder.buffer[i] == r;
      var k := BufferedIsLater(c, s, i);
      if r.path == s.reorder.matcher.lookingFor {
        AwaitedIsTop(c, s, i);
      }
    }
  }

  /** What may not stray never does. */
  lemma {:induction false} NeverStrays(c: Config, path: seq<State>)
    requires Sensible(c) && IsPath(c, path) && Inv(c, path[0]) && DroppedIsDone(path[0])
    requires path[0].shared.stop && !path[0].reorder.stray && !MayStray(c, path[0])
    ensures !path[|path| - 1].reorder.stray
  {
    if |path| > 1 {
      assert Next(c, path[0], path[0 + 1]);
      var a :| Step(c, path[0], a, path[1]);
      if MayStray(c, path[1]) || path[1].reorder.stray {
        match a
        case Worker(w) => WorkerKeepsStray(c, path[0], w, path[1]);
        case Consumer => ConsumerBack(c, path[0], path[1]);
        case Owner =>
      } else {
        InvStep(c, path[0], a, path[1]);
        DroppedIsDoneStep(c, path[0], a, path[1]);
        StopStays(c, path[0], a, path[1]);
        var rest := path[1..];
        forall i | 0 <= i < |rest| - 1 ensures Next(c, rest[i], rest[i + 1]) {
          assert Next(c, path[i + 1], path[i + 1 + 1]);
        }
        NeverStrays(c, rest);
      }
    }
  }

  lemma {:induction false} StopStays(c: Config, s: State, a: Actor, s': State)
    requires Step(c, s, a, s') && s.shared.stop
    ensures s'.shared.stop
  {
    if a.Worker? {
      ReceiverKept(c, a.id, IteratorFree(s.workers), s.shared, s.workers[a.id], s'.shared, s'.workers[a.id]);
    }
  }

  // ---- After a stop every step of a worker brings the end nearer ----

  function Monus(a: nat, b: nat): nat {
    if a < b then 0 else a - b
  }

  /** The steps a worker still takes after a stop, at most, and what it puts into the channels. */
  function StopCost(pc: Pc): nat {
    match pc
    case Exited => 0
    case Pulling(AtTop) => 1
    case Pulling(Wait) => 2
    case Pulling(Check) => 5
    case Pulling(Drain) => 6
    case Idle => 2
    case Completing => 3
    case Started(_) => 4
    case Bulk(x, sent) => 4 + 3 * Monus(|ReadKids(x.tree)|, sent)
    case BulkSend(x, sent) => 3 + 3 * Monus(|ReadKids(x.tree)|, sent)
    case Sending(x, _) => 6 + 3 * |ReadKids(x.tree)|
    case Streaming(x, _) => 7 + 3 * |ReadKids(x.tree)|
    case StreamSend(x, _) => 9 + 3 * |ReadKids(x.tree)|
  }

  const STOP_COST: Pc -> nat := (pc: Pc) => StopCost(pc)

  function StopLeft(s: State): nat {
    SumOver(s.workers, STOP_COST) + |s.shared.chan| + |s.shared.results|
  }

  lemma {:induction false} StopMoveCosts(c: Config, w: nat, free: bool, h: Shared, pc: Pc, h': Shared, pc': Pc)
    requires WorkerMoves(c, w, free, h, pc, h', pc') && h.stop
    ensures StopCost(pc') + |h'.chan| + |h'.results| < StopCost(pc) + |h.chan| + |h.results|
  {
    match pc
    case Pulling(phase) =>
    case _ =>
  }

  lemma {:induction false} StopStepCosts(c: Config, s: State, w: nat, s': State)
    requires WorkerStep(c, s, w, s') && s.shared.stop
    ensures StopLeft(s') < StopLeft(s)
  {
    StopMoveCosts(c, w, IteratorFree(s.workers), s.shared, s.workers[w], s'.shared, s'.workers[w]);
    SumUpdate(s.workers, w, s'.workers[w], STOP_COST);
  }

  /** With room for the sends of specs, a worker that has not left can move, or some worker waits
      for room to send its result. */
  lemma {:induction false} SomeWorkerCan(c: Config, s: State, f: nat) returns (w: nat)
    requires Ample(c, f) && Reachable(c, s) && !Disconnected(s.workers)
    ensures w < |s.workers| && !s.workers[w].Exited?
    ensures !Enabled(c, s, s.workers[w]) ==>
              s.workers[w].Sending? && !s.shared.receiverGone && |s.shared.results| >= c.capacity
  {
    if v :| 0 <= v < |s.workers| && s.workers[v].Pulling? {
      w := v;
    } else {
      w :| 0 <= w < |s.workers| && !s.workers[w].Exited?;
      if s.workers[w].StreamSend? || s.workers[w].BulkSend? {
        NoSendBlocks(c, s, f, w);
      }
    }
  }

  lemma {:induction false} StrayNow(c: Config, s: State, a: Actor, s': State)
    requires Step(c, s, a, s') && s'.reorder.stray
    ensures CanStray(c, s)
  {
    assert IsPath(c, [s']) && [s'][|[s']| - 1].reorder.stray;
    StrayFurther(c, s, a, s');
  }

  lemma {:induction false} StrayFurther(c: Config, s: State, a: Actor, s': State)
    requires Step(c, s, a, s') && CanStray(c, s')
    ensures CanStray(c, s)
  {
    var path: seq<State> :| IsPath(c, path) && path[0] == s' && path[|path| - 1].reorder.stray;
    var longer := [s] + path;
    forall i | 0 <= i < |longer| - 1 ensures Next(c, longer[i], longer[i + 1]) {
      if i == 0 {
        assert Next(c, s, s');
      } else {
        assert Next(c, path[i - 1], path[i - 1 + 1]);
      }
    }
    assert longer[|longer| - 1] == path[|path| - 1];
  }

  /** What awaits a call that may stray, once no worker can move: one step of the consumer. */
  lemma {:induction false} ConsumerOn(c: Config, s: State)
    requires Inv(c, s) && MayStray(c, s)
    requires s.shared.results == [] ==> Disconnected(s.workers)
    ensures exists s' :: ConsumerStep(c, s, s') && Strays(c, s, s')
  {
    var h, r := s.shared, s.reorder;
    var s';
    if Disconnected(s.workers) {
      NothingOwed(s.workers);
    }
    match r.pc {
      case Draining =>
        if h.results != [] {
          s' := State(h.(results := h.results[1..]), s.workers, r.(buffer := r.buffer + [h.results[0]]));
          ReceivedBack(s, s');
        } else {
          s' := s.(reorder := r.(pc := Checking));
        }
      case Checking =>
        StillAwaited(c, s);
        s' := s.(reorder := r.(pc := Waiting));
      case Waiting =>
        var i := ResultTopExists(r.buffer);
        s' := s.(reorder := r.(pc := Top, buffer := Without(r.buffer, i),
                               yielded := r.yielded + [r.buffer[i]], stray := true));
        assert FallbackStep(r, s'.reorder);
    }
    assert ConsumerStep(c, s, s') && Strays(c, s, s');
  }

  /** The step takes the call nearer to the fallback, or is the fallback. */
  ghost predicate Strays(c: Config, s: State, s': State) {
    && s'.workers == s.workers && s'.shared == s.shared.(results := s'.shared.results)
    && (s'.reorder.stray ||
        (&& MayStray(c, s')
         && (|| |s'.shared.results| < |s.shared.results|
             || (s'.shared.results == s.shared.results && StrayRank(s'.reorder.pc) < StrayRank(s.reorder.pc)))))
  }

  function StrayRank(pc: ConsumerPc): nat {
    match pc
    case Draining => 2
    case Checking => 1
    case _ => 0
  }

  lemma {:induction false} StillAwaited(c: Config, s: State)
    requires Inv(c, s) && !BetweenCalls(s.reorder.pc) && s.reorder.buffer != []
    ensures s.reorder.matcher.lookingFor != []
  {
    OM.MatcherFollowsPreorder(Parallel, c.root, |s.reorder.yielded|);
    var k := BufferedIsLater(c, s, 0);
  }

  lemma {:induction false} StrayReached(c: Config, s: State, f: nat)
    requires Ample(c, f)
    requires Reachable(c, s) && MayStray(c, s)
    ensures CanStray(c, s)
    decreases StopLeft(s), StrayRank(s.reorder.pc)
  {
    InvReachable(c, s);
    DroppedIsDoneReachable(c, s);
    if !Disconnected(s.workers) {
      var w := SomeWorkerCan(c, s, f);
      if Enabled(c, s, s.workers[w]) {
        CanMoveExactly(c, s, w);
        var s' :| WorkerStep(c, s, w, s');
        WorkerKeepsStray(c, s, w, s');
        StopStepCosts(c, s, w, s');
        ReachStep(c, s, Worker(w), s');
        StrayReached(c, s', f);
        StrayFurther(c, s, Worker(w), s');
        return;
      }
    }
    ConsumerOn(c, s);
    var s' :| ConsumerStep(c, s, s') && Strays(c, s, s');
    ReachStep(c, s, Consumer, s');
    if s'.reorder.stray {
      StrayNow(c, s, Consumer, s');
    } else {
      StrayReached(c, s', f);
      StrayFurther(c, s, Consumer, s');
    }
  }

  /** The exact condition. From a stopped state the output can still get out of order if and only
      if a call of `next` is under way that finds nothing awaited among all that is there or can
      still come in, although there is something, and that takes all of it in before it waits. */
  lemma {:induction false} StrayExactly(c: Config, s: State, f: nat)
    requires Ample(c, f)
    requires Reachable(c, s) && s.shared.stop && !s.reorder.stray
    ensures CanStray(c, s) <==> MayStray(c, s)
  {
    if CanStray(c, s) && !MayStray(c, s) {
      var path: seq<State> :| IsPath(c, path) && path[0] == s && path[|path| - 1].reorder.stray;
      InvReachable(c, s);
      DroppedIsDoneReachable(c, s);
      NeverStrays(c, path);
    }
    if MayStray(c, s) {
      StrayReached(c, s, f);
    }
  }

  function Raised(s: State): State {
    s.(shared := s.shared.(stop := true))
  }

  /** For whoever raises the flag: the stop can disorder the output exactly in these states. */
  lemma {:induction false} RaisingCanStray(c: Config, s: State, f: nat)
    requires Ample(c, f)
    requires Reachable(c, s) && !s.shared.stop
    ensures CanStray(c, Raised(s)) <==> MayStray(c, Raised(s))
    ensures BetweenCalls(s.reorder.pc) ==> !CanStray(c, Raised(s))
  {
    InvReachable(c, s);
    assert OwnerStep(s, Raised(s));
    ReachStep(c, s, Owner, Raised(s));
    StrayExactly(c, Raised(s), f);
  }
}
