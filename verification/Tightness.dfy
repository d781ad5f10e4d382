/** The capacity bound is exact: with N * (F - 1) places or fewer in the spec channel there is
    a tree with at most F children per directory on which the walk gets stuck for ever. */
module Tightness {
  import opened IndexPaths
  import opened Trees
  import opened Heaps
  import opened Folds
  import opened Protocol
  import opened Accounting
  import opened Pending
  import opened Ordering
  import opened Safety
  import opened Bounds
  import opened Progress
  import opened Fairness
  import OM = OrderedMatching

  /** Nobody can ever do work again, although the walk is neither stopped nor finished: no
      worker is able to move, nothing is on its way to the consumer, and what the consumer
      waits for is not in its buffer. */
  ghost predicate Stuck(c: Config, s: State) {
    && !s.shared.stop && !s.shared.receiverGone
    && (forall w | 0 <= w < |s.workers| :: !Enabled(c, s, s.workers[w]))
    && s.shared.results == [] && !Disconnected(s.workers)
    && s.reorder.pc != Done && s.reorder.matcher.lookingFor != [] && !TopMatches(s.reorder)
  }

  lemma {:induction false} NotEnabledNoMove(c: Config, w: nat, s: State, h': Shared, pc': Pc)
    requires w < |s.workers| && !Enabled(c, s, s.workers[w])
    ensures !WorkerMoves(c, w, IteratorFree(s.workers), s.shared, s.workers[w], h', pc')
  {
  }

  /** Stuck is for ever: whatever a worker or the consumer does, it stays stuck, and nothing more is handed out. */
  lemma {:induction false} StuckForever(c: Config, s: State, a: Actor, s': State)
    requires Stuck(c, s) && Step(c, s, a, s') && a != Owner
    ensures Stuck(c, s') && s'.reorder.yielded == s.reorder.yielded && s'.workers == s.workers
  {
    match a
    case Worker(w) =>
      NotEnabledNoMove(c, w, s, s'.shared, s'.workers[w]);
    case Consumer =>
      assert TopMatches(s'.reorder) ==> TopMatches(s.reorder);
      assert s'.shared == s.shared;
  }

  // ---- Reaching further ----

  lemma {:induction false} ReachInit(c: Config) returns (s: State)
    ensures Init(c, s) && Reachable(c, s)
  {
    s := State(
      Shared([Spec(c.root, [0], ROOT_WEIGHT)], [], 1, [], false, false, seq(c.workers, _ => 0)),
      seq(c.workers, _ => Idle),
      Reorder(Top, [], OM.START, [], false));
    assert IsRun(c, [s]);
    assert [s][|[s]| - 1] == s;
  }

  lemma {:induction false} ReachStep(c: Config, s: State, a: Actor, s': State)
    requires Reachable(c, s) && Step(c, s, a, s')
    ensures Reachable(c, s')
  {
    var run :| IsRun(c, run) && run[|run| - 1] == s;
    var longer := run + [s'];
    forall i | 0 <= i < |longer| - 1 ensures Next(c, longer[i], longer[i + 1]) {
      if i < |run| - 1 {
        assert Next(c, run[i], run[i + 1]);
      } else {
        assert Next(c, s, s');
      }
    }
    assert IsRun(c, longer) && longer[|longer| - 1] == s';
  }

  /** Worker `w` makes the given move. */
  lemma {:induction false} Go(c: Config, s: State, w: nat, h': Shared, pc': Pc) returns (s': State)
    requires Reachable(c, s) && w < |s.workers|
    requires WorkerMoves(c, w, IteratorFree(s.workers), s.shared, s.workers[w], h', pc')
    ensures Reachable(c, s') && s' == State(h', s.workers[w := pc'], s.reorder)
  {
    s' := State(h', s.workers[w := pc'], s.reorder);
    assert WorkerStep(c, s, w, s');
    ReachStep(c, s, Worker(w), s');
  }

  // ---- The consumer catches up ----

  function PhaseRank(pc: ConsumerPc): nat {
    match pc
    case Waiting => 4
    case Top => 3
    case Draining => 2
    case Checking => 1
    case Done => 0
  }

  /** A worker is in the middle of a directory, so the walk is not over. */
  ghost predicate InTask(workers: seq<Pc>) {
    exists w :: 0 <= w < |workers| && (workers[w].Streaming? || workers[w].StreamSend?)
  }

  lemma {:induction false} StillAwaiting(c: Config, s: State)
    requires Sensible(c) && Reachable(c, s) && !s.shared.stop && InTask(s.workers)
    ensures s.reorder.matcher.lookingFor != []
  {
    InvReachable(c, s);
    OM.MatcherFollowsPreorder(Parallel, c.root, |s.reorder.yielded|);
    if |s.reorder.yielded| == |Nodes(c)| {
      AllOutIsFinished(c, s);
    }
  }

  /** One receive, one result handed out, or one phase further. */
  lemma {:induction false} ConsumerGoes(c: Config, s: State) returns (s': State)
    requires Reachable(c, s) && !s.shared.stop && s.reorder.pc != Done
    requires InTask(s.workers) && s.reorder.matcher.lookingFor != []
    requires s.shared.results != [] || TopMatches(s.reorder)
    ensures Reachable(c, s') && s'.shared == s.shared.(results := s'.shared.results) && s'.workers == s.workers
    ensures s'.reorder.pc != Done
    ensures 2 * |s'.shared.results| + |s'.reorder.buffer| < 2 * |s.shared.results| + |s.reorder.buffer|
            || (&& 2 * |s'.shared.results| + |s'.reorder.buffer| == 2 * |s.shared.results| + |s.reorder.buffer|
                && PhaseRank(s'.reorder.pc) < PhaseRank(s.reorder.pc))
  {
    var results, r := s.shared.results, s.reorder;
    var results', r' := results, r;
    match r.pc {
      case Waiting =>
        r' := r.(pc := Top);
        if results != [] {
          results', r' := results[1..], r'.(buffer := r.buffer + [results[0]]);
        }
      case Top =>
        r' := r.(pc := if TopMatches(r) then Checking else Draining);
      case Draining =>
        if |r.buffer| < c.maxBuffer && results != [] {
          results', r' := results[1..], r.(buffer := r.buffer + [results[0]]);
        } else {
          r' := r.(pc := Checking);
        }
      case Checking =>
        if TopMatches(r) {
          var i: nat :| ResultTop(r.buffer, i) && r.buffer[i].path == r.matcher.lookingFor;
          r' := r.(pc := Top, buffer := Without(r.buffer, i),
                   matcher := OM.Advance(r.matcher, r.buffer[i].childCount), yielded := r.yielded + [r.buffer[i]]);
        } else {
          var waiting := s.(reorder := r.(pc := Waiting));
          assert ConsumerStep(c, s, waiting);
          ReachStep(c, s, Consumer, waiting);
          s' := State(s.shared.(results := results[1..]), s.workers, r.(pc := Top, buffer := r.buffer + [results[0]]));
          assert ConsumerStep(c, waiting, s');
          ReachStep(c, waiting, Consumer, s');
          return;
        }
    }
    s' := State(s.shared.(results := results'), s.workers, r');
    assert ConsumerStep(c, s, s');
    ReachStep(c, s, Consumer, s');
  }

  /** Everything in flight is received, and everything that can be handed out is. */
  lemma {:induction false} ConsumerSettles(c: Config, s: State)
    requires Sensible(c) && Reachable(c, s) && !s.shared.stop && s.reorder.pc != Done && InTask(s.workers)
    ensures exists s' :: Reachable(c, s') && Settled(s, s')
    decreases 2 * |s.shared.results| + |s.reorder.buffer|, PhaseRank(s.reorder.pc)
  {
    StillAwaiting(c, s);
    if s.shared.results == [] && !TopMatches(s.reorder) {
      assert Settled(s, s);
    } else {
      var next := ConsumerGoes(c, s);
      ConsumerSettles(c, next);
      var s' :| Reachable(c, s') && Settled(next, s');
      assert Settled(s, s');
    }
  }

  ghost predicate Settled(s: State, s': State) {
    && s'.shared == s.shared.(results := []) && s'.workers == s.workers
    && s'.reorder.pc != Done && s'.reorder.matcher.lookingFor != [] && !TopMatches(s'.reorder)
  }

  // ---- A tree with exactly `f` children per directory, all streamed, down to a given depth ----

  function Copies(t: Tree, n: nat): (r: seq<Tree>)
    ensures |r| == n && forall k | 0 <= k < n :: r[k] == t
  {
    if n == 0 then [] else [t] + Copies(t, n - 1)
  }

  function DirRows(t: Tree, depth: nat, n: nat): seq<Row> {
    if n == 0 then [] else [RowOk("d", depth, Some(t))] + DirRows(t, depth, n - 1)
  }

  lemma {:induction false} DirRowsKids(t: Tree, depth: nat, n: nat)
    ensures RowKids(DirRows(t, depth, n)) == Copies(t, n)
  {
    if n > 0 {
      DirRowsKids(t, depth, n - 1);
      assert DirRows(t, depth, n)[1..] == DirRows(t, depth, n - 1);
    }
  }

  function Full(f: nat, levels: nat, depth: nat): Tree
    decreases levels
  {
    if levels == 0 then Dir(ReadOk([]), [])
    else
      var kid := Full(f, levels - 1, depth + 1);
      Dir(ReadOk(DirRows(kid, depth + 1, f)), Copies(kid, f))
  }

  /** At least so many levels of directories with `f` streamed children each. */
  predicate Tall(t: Tree, f: nat, levels: nat)
    decreases levels
  {
    levels == 0 || (|t.streamed| == f && forall k | 0 <= k < |t.streamed| :: Tall(t.streamed[k], f, levels - 1))
  }

  lemma {:induction false} FullIsTall(f: nat, levels: nat, depth: nat)
    ensures var t := Full(f, levels, depth); Tall(t, f, levels) && FanAtMost(t, f) && Aligned(t)
    decreases levels
  {
    if levels > 0 {
      FullIsTall(f, levels - 1, depth + 1);
      DirRowsKids(Full(f, levels - 1, depth + 1), depth + 1, f);
      CopiesAligned(Full(f, levels, depth), Full(f, levels - 1, depth + 1), 0);
    }
  }

  lemma {:induction false} CopiesAligned(t: Tree, kid: Tree, i: nat)
    requires i <= |Kids(Parallel, t)| && Aligned(kid)
    requires forall k | 0 <= k < |Kids(Parallel, t)| :: Kids(Parallel, t)[k] == kid
    ensures KidsAligned(t, i)
    decreases |Kids(Parallel, t)| - i
  {
    if i < |Kids(Parallel, t)| {
      CopiesAligned(t, kid, i + 1);
    }
  }

  lemma {:induction false} TallLess(t: Tree, f: nat, levels: nat)
    requires levels > 0 && Tall(t, f, levels)
    ensures Tall(t, f, levels - 1)
    decreases levels
  {
    if levels > 1 {
      forall k | 0 <= k < |t.streamed| ensures Tall(t.streamed[k], f, levels - 2) {
        TallLess(t.streamed[k], f, levels - 1);
      }
    }
  }

  ghost predicate AllTall(q: seq<Spec>, f: nat, levels: nat) {
    forall y | y in q :: Tall(y.tree, f, levels)
  }

  lemma {:induction false} AllTallLess(q: seq<Spec>, f: nat, levels: nat)
    requires levels > 0 && AllTall(q, f, levels)
    ensures AllTall(q, f, levels - 1)
  {
    forall y | y in q ensures Tall(y.tree, f, levels - 1) {
      TallLess(y.tree, f, levels);
    }
  }

  // ---- Getting every worker to hold a directory of which nothing is scheduled yet ----

  /** Not stopped, and everything scheduled is tall. */
  ghost predicate Going(c: Config, s: State, f: nat, levels: nat) {
    && Reachable(c, s) && |s.workers| == |s.shared.pushed| == c.workers
    && !s.shared.stop && !s.shared.receiverGone && s.reorder.pc != Done
    && AllTall(s.shared.chan, f, levels) && AllTall(s.shared.heap, f, levels)
  }

  /** A worker with a directory of `f` streamed children, none of them scheduled. */
  ghost predicate Fresh(pc: Pc, f: nat) {
    pc.Streaming? && pc.sent == 0 && |pc.spec.tree.streamed| == f
  }

  lemma {:induction false} DrainAll(c: Config, s: State, w: nat, f: nat, levels: nat) returns (s': State)
    requires Going(c, s, f, levels) && w < c.workers && s.workers[w] == Pulling(Drain)
    ensures Going(c, s', f, levels) && s'.workers == s.workers && s'.shared.results == s.shared.results
    ensures s'.shared.chan == [] && |s'.shared.heap| == |s.shared.heap| + |s.shared.chan|
    decreases |s.shared.chan|
  {
    if s.shared.chan == [] {
      s' := s;
    } else {
      var next := Go(c, s, w, Received(s.shared), Pulling(Drain));
      assert next.workers == s.workers;
      s' := DrainAll(c, next, w, f, levels);
    }
  }

  function HasTaken(s: State, w: nat, i: nat): State
    requires w < |s.workers| && i < |s.shared.heap|
  {
    s.(shared := s.shared.(heap := Without(s.shared.heap, i)),
       workers := s.workers[w := Streaming(s.shared.heap[i], 0)])
  }

  /** A worker that saw the channel empty takes the heap's top. */
  lemma {:induction false} TakeTop(c: Config, s: State, w: nat, f: nat, levels: nat) returns (i: nat)
    requires Going(c, s, f, levels) && w < c.workers && s.workers[w] == Pulling(Check)
    requires f > 0 && levels > 0 && s.shared.heap != []
    ensures i < |s.shared.heap| && Tall(s.shared.heap[i].tree, f, levels)
    ensures Going(c, HasTaken(s, w, i), f, levels)
  {
    i := SpecTopExists(s.shared.heap);
    var x := s.shared.heap[i];
    assert x in s.shared.heap;
    var s1 := Go(c, s, w, s.shared.(heap := Without(s.shared.heap, i)), Started(x));
    var s2 := Go(c, s1, w, s1.shared, Streaming(x, 0));
    assert s2 == HasTaken(s, w, i);
  }

  /** A worker that drains takes a directory. */
  lemma {:induction false} Take(c: Config, s: State, w: nat, f: nat, levels: nat) returns (s': State)
    requires Going(c, s, f, levels) && w < c.workers && s.workers[w] == Pulling(Drain)
    requires f > 0 && levels > 0 && |s.shared.chan| + |s.shared.heap| > 0
    ensures Going(c, s', f, levels) && s'.shared.chan == [] && s'.shared.results == s.shared.results
    ensures |s'.shared.heap| == |s.shared.chan| + |s.shared.heap| - 1
    ensures s'.workers == s.workers[w := s'.workers[w]] && Fresh(s'.workers[w], f)
    ensures Tall(s'.workers[w].spec.tree, f, levels)
  {
    var s1 := DrainAll(c, s, w, f, levels);
    var s2 := Go(c, s1, w, s1.shared.(pushed := seq(|s1.shared.pushed|, _ => 0)), Pulling(Check));
    var i := TakeTop(c, s2, w, f, levels);
    s' := HasTaken(s2, w, i);
  }

  lemma {:induction false} StartDraining(c: Config, s: State, w: nat, f: nat, levels: nat)
    requires Going(c, s, f, levels) && w < c.workers && s.workers[w] == Idle && IteratorFree(s.workers)
    ensures Going(c, NowDraining(s, w), f, levels)
  {
    var s1 := Go(c, s, w, s.shared, Pulling(AtTop));
    var s2 := Go(c, s1, w, s1.shared, Pulling(Drain));
    assert s2 == NowDraining(s, w);
  }

  function NowDraining(s: State, w: nat): State
    requires w < |s.workers|
  {
    s.(workers := s.workers[w := Pulling(Drain)])
  }

  /** A worker counts and sends its next child. */
  lemma {:induction false} SendOne(c: Config, s: State, p: nat)
    requires Reachable(c, s) && p < |s.workers| == |s.shared.pushed| && |s.shared.chan| < c.capacity && !s.shared.stop
    requires s.workers[p].Streaming? && s.workers[p].sent < |s.workers[p].spec.tree.streamed|
    ensures Reachable(c, HasSent(s, p))
  {
    var x, sent := s.workers[p].spec, s.workers[p].sent;
    var s1 := Go(c, s, p, s.shared.(pending := s.shared.pending + 1), StreamSend(x, sent));
    var s2 := Go(c, s1, p, HasSent(s, p).shared, Streaming(x, sent + 1));
    assert s2 == HasSent(s, p);
  }

  function HasSent(s: State, p: nat): State
    requires p < |s.workers| == |s.shared.pushed|
    requires s.workers[p].Streaming? && s.workers[p].sent < |s.workers[p].spec.tree.streamed|
  {
    var x, sent, h := s.workers[p].spec, s.workers[p].sent, s.shared;
    s.(shared := h.(pending := h.pending + 1, chan := h.chan + [StreamedChild(x, sent)],
                    pushed := h.pushed[p := h.pushed[p] + 1]),
       workers := s.workers[p := Streaming(x, sent + 1)])
  }

  /** Worker `p` has scheduled `n` more children, all of them drained into the heap. */
  ghost predicate Scheduled(c: Config, s: State, s': State, p: nat, n: nat, f: nat, levels: nat) {
    && Going(c, s', f, levels) && s'.shared.chan == [] && s'.shared.results == s.shared.results
    && |s'.shared.heap| == |s.shared.heap| + n
    && p < |s.workers| && s.workers[p].Streaming?
    && s'.workers == s.workers[p := Streaming(s.workers[p].spec, s.workers[p].sent + n)]
  }

  ghost predicate CanSchedule(c: Config, s: State, p: nat, n: nat, f: nat, levels: nat) {
    exists s' :: Scheduled(c, s, s', p, n, f, levels)
  }

  /** One worker schedules its next child while another one drains. */
  lemma {:induction false} ScheduleOne(c: Config, s: State, p: nat, d: nat, f: nat, levels: nat)
    requires Sensible(c) && Going(c, s, f, levels) && p < c.workers && d < c.workers && p != d
    requires s.workers[p].Streaming? && s.workers[d] == Pulling(Drain) && s.shared.chan == []
    requires Tall(s.workers[p].spec.tree, f, levels + 1) && s.workers[p].sent < f
    ensures CanSchedule(c, s, p, 1, f, levels)
  {
    var child := StreamedChild(s.workers[p].spec, s.workers[p].sent);
    assert Tall(child.tree, f, levels);
    SendOne(c, s, p);
    var s1 := HasSent(s, p);
    assert s1.shared.chan == [child];
    var s' := Go(c, s1, d, Received(s1.shared), Pulling(Drain));
    assert s'.workers == s1.workers;
    assert Scheduled(c, s, s', p, 1, f, levels);
  }

  lemma {:induction false} ScheduleAll(c: Config, s: State, p: nat, d: nat, f: nat, levels: nat)
    requires Sensible(c) && Going(c, s, f, levels) && p < c.workers && d < c.workers && p != d
    requires s.workers[p].Streaming? && s.workers[d] == Pulling(Drain) && s.shared.chan == []
    requires Tall(s.workers[p].spec.tree, f, levels + 1) && s.workers[p].sent <= f
    ensures CanSchedule(c, s, p, f - s.workers[p].sent, f, levels)
    decreases f - s.workers[p].sent
  {
    var n := f - s.workers[p].sent;
    if n == 0 {
      assert Scheduled(c, s, s, p, 0, f, levels);
    } else {
      ScheduleOne(c, s, p, d, f, levels);
      var next :| Scheduled(c, s, next, p, 1, f, levels);
      ScheduleAll(c, next, p, d, f, levels);
      var k := n - 1;
      var s' :| Scheduled(c, next, s', p, k, f, levels);
      assert Scheduled(c, s, s', p, n, f, levels);
    }
  }

  /** A worker that has streamed all its children reports and becomes idle. */
  lemma {:induction false} Report(c: Config, s: State, p: nat, f: nat, levels: nat)
    requires Sensible(c) && Going(c, s, f, levels) && p < c.workers && f > 0 && s.shared.results == []
    requires s.workers[p].Streaming? && s.workers[p].sent == |s.workers[p].spec.tree.streamed| == f
    ensures Going(c, HasReported(s, p, f), f, levels)
  {
    var x := s.workers[p].spec;
    var s1 := Go(c, s, p, s.shared, Sending(x, f));
    var s2 := Go(c, s1, p, s1.shared.(results := s1.shared.results + [Result(x, f)]), Completing);
    var s3 := Go(c, s2, p, s2.shared.(pending := s2.shared.pending - 1), Idle);
    assert s3 == HasReported(s, p, f);
  }

  function HasReported(s: State, p: nat, f: nat): State
    requires p < |s.workers| && s.workers[p].Streaming?
  {
    var r := Result(s.workers[p].spec, f);
    s.(shared := s.shared.(results := s.shared.results + [r], pending := s.shared.pending - 1),
       workers := s.workers[p := Idle])
  }

  /** The first `r` workers hold a fresh directory, the others are idle, and there is work. */
  ghost predicate Ready(c: Config, s: State, r: nat, f: nat, levels: nat) {
    && Going(c, s, f, levels)
    && s.shared.results == [] && |s.shared.chan| + |s.shared.heap| > 0
    && (forall v | 0 <= v < |s.workers| :: if v < r then Fresh(s.workers[v], f) else s.workers[v] == Idle)
  }

  ghost predicate CanBeReady(c: Config, r: nat, f: nat, levels: nat) {
    exists s :: Ready(c, s, r, f, levels)
  }

  ghost predicate CanTake(c: Config, s: State, p: nat, f: nat, levels: nat) {
    exists s' :: Taken(c, s, s', p, f, levels)
  }

  /** The last worker takes a directory. */
  lemma {:induction false} LastTakes(c: Config, s: State, r: nat, f: nat, levels: nat)
    requires Sensible(c) && r < c.workers && f >= 2 && levels >= 1 && Ready(c, s, r, f, levels)
    ensures CanTake(c, s, c.workers - 1, f, levels)
  {
    var p := c.workers - 1;
    StartDraining(c, s, p, f, levels);
    var s' := Take(c, NowDraining(s, p), p, f, levels);
    assert Taken(c, s, s', p, f, levels);
  }

  /** Worker `p` has come to hold a fresh directory, and the channel is empty. */
  ghost predicate Taken(c: Config, s: State, s': State, p: nat, f: nat, levels: nat) {
    && Going(c, s', f, levels) && s'.shared.chan == [] && s'.shared.results == []
    && p < |s.workers| == |s'.workers| && s'.workers == s.workers[p := s'.workers[p]]
    && Fresh(s'.workers[p], f) && Tall(s'.workers[p].spec.tree, f, levels)
  }

  /** The last worker processes a directory while worker `r` drains. */
  lemma {:induction false} ProcessOne(c: Config, s: State, r: nat, f: nat, levels: nat)
    requires Sensible(c) && r + 1 < c.workers && f >= 2 && levels >= 1 && Ready(c, s, r, f, levels + 1)
    ensures exists s' ::
              && Going(c, s', f, levels) && s'.workers == s.workers[r := Pulling(Drain)]
              && s'.shared.chan == [] && |s'.shared.heap| >= 2
  {
    var p := c.workers - 1;
    LastTakes(c, s, r, f, levels + 1);
    var s2 :| Taken(c, s, s2, p, f, levels + 1);
    ProcessTaken(c, s2, p, r, f, levels);
    var s' :| Going(c, s', f, levels) && s'.workers == s2.workers[r := Pulling(Drain)][p := Idle]
      && s'.shared.chan == [] && |s'.shared.heap| >= 2;
    assert s.workers[p] == Idle;
    assert s'.workers == s.workers[r := Pulling(Drain)];
  }

  lemma {:induction false} ProcessTaken(c: Config, s: State, p: nat, r: nat, f: nat, levels: nat)
    requires Sensible(c) && r < c.workers && p < c.workers && p != r && f >= 2 && Going(c, s, f, levels + 1)
    requires s.shared.chan == [] && s.shared.results == [] && IteratorFree(s.workers) && s.workers[r] == Idle
    requires Fresh(s.workers[p], f) && Tall(s.workers[p].spec.tree, f, levels + 1)
    ensures exists s' ::
              && Going(c, s', f, levels) && s'.workers == s.workers[r := Pulling(Drain)][p := Idle]
              && s'.shared.chan == [] && |s'.shared.heap| >= 2
  {
    StartDraining(c, s, r, f, levels + 1);
    var s3 := NowDraining(s, r);
    AllTallLess(s3.shared.heap, f, levels + 1);
    ScheduleAll(c, s3, p, r, f, levels);
    var s4 :| Scheduled(c, s3, s4, p, f, f, levels);
    Report(c, s4, p, f, levels);
    var s' := HasReported(s4, p, f);
    assert Going(c, s', f, levels);
  }

  /** One more worker gets a fresh directory: it takes one of the children just scheduled. */
  lemma {:induction false} Round(c: Config, s: State, r: nat, f: nat, levels: nat)
    requires Sensible(c) && r + 1 < c.workers && f >= 2 && levels >= 1 && Ready(c, s, r, f, levels + 1)
    ensures CanBeReady(c, r + 1, f, levels)
  {
    ProcessOne(c, s, r, f, levels);
    var s1 :| Going(c, s1, f, levels) && s1.workers == s.workers[r := Pulling(Drain)]
      && s1.shared.chan == [] && |s1.shared.heap| >= 2;
    var s2 := Take(c, s1, r, f, levels);
    assert InTask(s2.workers);
    ConsumerSettles(c, s2);
    var s' :| Reachable(c, s') && Settled(s2, s');
    assert Ready(c, s', r + 1, f, levels);
  }

  lemma {:induction false} Rounds(c: Config, s: State, r: nat, f: nat)
    requires Sensible(c) && r < c.workers && f >= 2 && Ready(c, s, r, f, c.workers - r)
    ensures CanBeReady(c, c.workers - 1, f, 1)
    decreases c.workers - r
  {
    if r + 1 < c.workers {
      Round(c, s, r, f, c.workers - r - 1);
      var next :| Ready(c, next, r + 1, f, c.workers - r - 1);
      Rounds(c, next, r + 1, f);
    }
  }

  // ---- Filling the channel ----

  /** The first `w` workers are in the middle of scheduling a child, the others hold a fresh directory. */
  ghost predicate Filling(c: Config, s: State, w: nat, f: nat) {
    && Reachable(c, s) && |s.workers| == |s.shared.pushed| == c.workers
    && !s.shared.stop && !s.shared.receiverGone && s.shared.results == [] && s.reorder.pc != Done
    && (forall v | 0 <= v < |s.workers| :: if v < w then s.workers[v].StreamSend? else Fresh(s.workers[v], f))
    && |s.shared.chan| <= c.capacity
  }

  function Min(a: nat, b: nat): nat {
    if a < b then a else b
  }

  /** A worker schedules all its children but one, or until the channel is full. */
  lemma {:induction false} FillOne(c: Config, s: State, w: nat, f: nat) returns (s': State)
    requires Reachable(c, s) && w < |s.workers| == |s.shared.pushed| && |s.shared.chan| <= c.capacity && !s.shared.stop
    requires s.workers[w].Streaming? && |s.workers[w].spec.tree.streamed| == f && s.workers[w].sent < f
    ensures Reachable(c, s') && |s'.workers| == |s.workers|
    ensures s'.workers == s.workers[w := s'.workers[w]] && s'.workers[w].StreamSend?
    ensures s'.shared == s.shared.(chan := s'.shared.chan, pending := s'.shared.pending, pushed := s'.shared.pushed)
    ensures |s'.shared.pushed| == |s.shared.pushed| && s'.reorder == s.reorder
    ensures |s'.shared.chan| == Min(c.capacity, |s.shared.chan| + f - 1 - s.workers[w].sent)
    decreases f - s.workers[w].sent
  {
    var x, sent := s.workers[w].spec, s.workers[w].sent;
    if |s.shared.chan| < c.capacity && sent + 1 < f {
      SendOne(c, s, w);
      var next := HasSent(s, w);
      s' := FillOne(c, next, w, f);
    } else {
      s' := Go(c, s, w, s.shared.(pending := s.shared.pending + 1), StreamSend(x, sent));
    }
  }

  /** `n` times `g`, as a sum. */
  function Total(n: nat, g: nat): nat {
    if n == 0 then 0 else g + Total(n - 1, g)
  }

  lemma {:induction false} TotalIsProduct(n: nat, g: nat)
    ensures Total(n, g) == n * g
  {
    if n > 0 {
      TotalIsProduct(n - 1, g);
    }
  }

  lemma {:induction false} FillAll(c: Config, s: State, w: nat, f: nat)
    requires f > 0 && w <= c.workers && Filling(c, s, w, f)
    ensures exists s' ::
              && Filling(c, s', c.workers, f)
              && |s'.shared.chan| == Min(c.capacity, |s.shared.chan| + Total(c.workers - w, f - 1))
    decreases c.workers - w
  {
    if w < c.workers {
      var next := FillOne(c, s, w, f);
      FillAll(c, next, w + 1, f);
    }
  }

  // ---- The exact bound ----

  function Witness(workers: nat, capacity: nat, maxBuffer: nat, f: nat): Config {
    Config(Full(f, workers, 0), workers, capacity, maxBuffer)
  }

  lemma {:induction false} StartReady(c: Config, f: nat)
    requires Sensible(c) && c == Witness(c.workers, c.capacity, c.maxBuffer, f)
    ensures CanBeReady(c, 0, f, c.workers)
  {
    var s := ReachInit(c);
    FullIsTall(f, c.workers, 0);
    assert Ready(c, s, 0, f, c.workers);
  }

  /** Every worker can come to hold a fresh directory, with the channel empty. */
  lemma {:induction false} AllHold(c: Config, f: nat)
    requires Sensible(c) && f >= 2 && c == Witness(c.workers, c.capacity, c.maxBuffer, f)
    ensures exists s :: Filling(c, s, 0, f) && s.shared.chan == []
  {
    StartReady(c, f);
    var start :| Ready(c, start, 0, f, c.workers);
    Rounds(c, start, 0, f);
    var ready :| Ready(c, ready, c.workers - 1, f, 1);
    LastTakes(c, ready, c.workers - 1, f, 1);
    var s :| Taken(c, ready, s, c.workers - 1, f, 1);
    assert Filling(c, s, 0, f);
  }

  /** From there all of them can come to be blocked on the full channel. */
  lemma {:induction false} AllBlocked(c: Config, f: nat)
    requires Sensible(c) && f >= 2 && c == Witness(c.workers, c.capacity, c.maxBuffer, f)
    requires c.capacity <= c.workers * (f - 1)
    ensures exists s :: Filling(c, s, c.workers, f) && |s.shared.chan| == c.capacity
  {
    AllHold(c, f);
    var held :| Filling(c, held, 0, f) && held.shared.chan == [];
    var total := Total(c.workers, f - 1);
    TotalIsProduct(c.workers, f - 1);
    assert Min(c.capacity, total) == c.capacity;
    FillAll(c, held, 0, f);
    var s :| Filling(c, s, c.workers, f) && |s.shared.chan| == Min(c.capacity, total);
  }

  lemma {:induction false} StuckReachable(c: Config, f: nat)
    requires Sensible(c) && f >= 2 && c == Witness(c.workers, c.capacity, c.maxBuffer, f)
    requires c.capacity <= c.workers * (f - 1)
    ensures exists s :: Reachable(c, s) && Stuck(c, s)
  {
    AllBlocked(c, f);
    var full :| Filling(c, full, c.workers, f) && |full.shared.chan| == c.capacity;
    assert full.workers[0].StreamSend?;
    ConsumerSettles(c, full);
    var s :| Reachable(c, s) && Settled(full, s);
    assert s.workers[0].StreamSend?;
    assert Stuck(c, s);
  }

  lemma {:induction false} BoundedRun(c: Config, run: seq<State>, f: nat)
    requires Sensible(c) && IsRun(c, run) && FanAtMost(c.root, f)
    ensures Bounded(run[|run| - 1], f)
  {
    if |run| == 1 {
      BoundedInit(c, run[0], f);
    } else {
      var before, a := LastStep(c, run);
      BoundedRun(c, before, f);
      InvRun(c, before);
      BoundedStep(c, before[|before| - 1], a, run[|run| - 1], f);
    }
  }

  lemma {:induction false} BoundedReachable(c: Config, s: State, f: nat)
    requires Sensible(c) && Reachable(c, s) && FanAtMost(c.root, f)
    ensures Bounded(s, f)
  {
    var run :| IsRun(c, run) && run[|run| - 1] == s;
    BoundedRun(c, run, f);
  }

  lemma {:induction false} NeverStuck(c: Config, s: State, f: nat)
    requires Roomy(c, f) && Reachable(c, s)
    ensures !Stuck(c, s)
  {
    if Stuck(c, s) {
      InvReachable(c, s);
      BoundedReachable(c, s, f);
      var w := SomebodyCan(c, s, f);
    }
  }

  /** A walk of trees with at most `f` children per directory can get stuck. */
  ghost predicate CanGetStuck(workers: nat, capacity: nat, maxBuffer: nat, f: nat) {
    exists root, s ::
      && FanAtMost(root, f) && Aligned(root)
      && Reachable(Config(root, workers, capacity, maxBuffer), s)
      && Stuck(Config(root, workers, capacity, maxBuffer), s)
  }

  /** Deadlock freedom with its exact bound: whatever the buffer limit, the walk can get stuck
      on a tree with at most `f` children per directory if and only if the spec channel holds
      no more than N * (f - 1) directories. */
  lemma {:induction false} CapacityIsExact(workers: nat, capacity: nat, maxBuffer: nat, f: nat)
    requires workers >= 1 && capacity >= 1 && f >= 1
    ensures CanGetStuck(workers, capacity, maxBuffer, f) <==> capacity <= workers * (f - 1)
  {
    if capacity <= workers * (f - 1) {
      var c := Witness(workers, capacity, maxBuffer, f);
      FullIsTall(f, workers, 0);
      StuckReachable(c, f);
      var s :| Reachable(c, s) && Stuck(c, s);
      assert Reachable(Config(c.root, workers, capacity, maxBuffer), s);
    } else if CanGetStuck(workers, capacity, maxBuffer, f) {
      var root, s :|
        && FanAtMost(root, f) && Aligned(root)
        && Reachable(Config(root, workers, capacity, maxBuffer), s)
        && Stuck(Config(root, workers, capacity, maxBuffer), s);
      NeverStuck(Config(root, workers, capacity, maxBuffer), s, f);
    }
  }

  /** Room for all children of one directory per worker; with one child at most, any room will do. */
  ghost predicate Ample(c: Config, f: nat) {
    && Sensible(c)
    && FanAtMost(c.root, f)
    && (f >= 2 ==> c.capacity >= c.workers * f)
  }

  lemma {:induction false} FrontRun(c: Config, run: seq<State>)
    requires Sensible(c) && IsRun(c, run) && FanAtMost(c.root, 1)
    ensures Front(run[|run| - 1]) <= 1
  {
    if |run| == 1 {
      FrontInit(c, run[0]);
    } else {
      var before, a := LastStep(c, run);
      FrontRun(c, before);
      InvRun(c, before);
      BoundedRun(c, before, 1);
      FrontStep(c, before[|before| - 1], a, run[|run| - 1]);
    }
  }

  /** With ample room no send of a spec blocks in any state of any run, stopped or not: no worker
      outlives a stop waiting for a channel that nobody drains any more. */
  lemma {:induction false} NoSendBlocks(c: Config, s: State, f: nat, w: nat)
    requires Ample(c, f) && Reachable(c, s)
    requires w < |s.workers| && (s.workers[w].StreamSend? || s.workers[w].BulkSend?)
    ensures |s.shared.chan| < c.capacity && CanMove(c, s, w)
  {
    InvReachable(c, s);
    BoundedReachable(c, s, f);
    if f >= 2 {
      SendNeverBlocks(c, s, f, w);
    } else {
      FanMore(c.root, f, 1);
      var run :| IsRun(c, run) && run[|run| - 1] == s;
      FrontRun(c, run);
      SenderIsTheFront(c, s, w);
    }
    CanMoveExactly(c, s, w);
  }
}
