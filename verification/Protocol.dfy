/** The parallel walk as a step relation: workers pulling scheduled directories from a
    shared work iterator, and one consumer putting their results back in order
    (src/core/read_dir_iter.rs, src/core/priority_queue.rs, src/core/ordered_queue.rs).

    Every access to state shared between threads is its own step: the stop flag, the
    counter, each channel operation. Channels are first-in first-out and bounded. A wait
    with a time limit either receives, or gives up when there is nothing to receive. */
module Protocol {
  import opened IndexPaths
  import opened Trees
  import opened Heaps
  import opened Folds
  import OM = OrderedMatching

  /** The root directory, the number of workers, the capacity of both channels, and how
      full the consumer lets its buffer get before it stops draining. */
  datatype Config = Config(root: Tree, workers: nat, capacity: nat, maxBuffer: nat)

  /** Where a worker is. Pulling: it holds the work iterator and is inside `try_next`. */
  datatype Pc =
    | Idle                                // wants the work iterator
    | Pulling(phase: Phase)
    | Started(spec: Spec)                 // has a directory, about to test the stop flag
    | Streaming(spec: Spec, sent: nat)    // enumerating; `sent` children already scheduled
    | StreamSend(spec: Spec, sent: nat)   // the same, counted the next child, sending it
    | Sending(spec: Spec, sent: nat)      // about to send the result
    | Bulk(spec: Spec, sent: nat)         // result sent, scheduling the children of the rows
    | BulkSend(spec: Spec, sent: nat)     // the same, counted the next child, sending it
    | Completing                          // about to take its directory off the count
    | Exited                              // the work iterator returned None

  datatype Phase = AtTop | Drain | Check | Wait

  /** What the threads share. */
  datatype Shared = Shared(
    chan: seq<Spec>,            // spec channel
    heap: seq<Spec>,            // the work iterator's heap, in no particular order
    pending: int,               // pending_count
    results: seq<Ordered>,      // result channel
    stop: bool,
    receiverGone: bool,         // the result receiver was dropped
    pushed: seq<nat>)           // history: per worker, specs sent since the channel was last seen empty

  /** Where the consumer is inside `next`; at `Top` also between two calls. */
  datatype ConsumerPc = Top | Draining | Checking | Waiting | Done

  /** What belongs to the consumer alone. */
  datatype Reorder = Reorder(
    pc: ConsumerPc,
    buffer: seq<Ordered>,       // its heap
    matcher: OM.Matcher,
    yielded: seq<Ordered>,
    stray: bool)                // history: the out-of-order fallback was taken

  datatype State = State(shared: Shared, workers: seq<Pc>, reorder: Reorder)

  const USIZE_MAX: nat := 0xFFFF_FFFF_FFFF_FFFF
  const ROOT_WEIGHT: nat := USIZE_MAX / 2

  function SaturatingAdd(a: nat, b: nat): nat {
    if a + b > USIZE_MAX then USIZE_MAX else a + b
  }

  function RowCount(t: Tree): nat {
    if t.read.ReadOk? then |t.read.rows| else 0
  }

  /** The `i`-th child scheduled while the directory is being enumerated (src/lib.rs:1373-1388). */
  function StreamedChild(x: Spec, i: nat): Spec
    requires i < |x.tree.streamed|
  {
    Spec(x.tree.streamed[i], x.path + [i], SaturatingAdd(x.weight, 1))
  }

  /** The `i`-th child scheduled from the finished rows (src/core/read_dir.rs:36-63). */
  function BulkChild(x: Spec, i: nat): Spec
    requires i < |ReadKids(x.tree)|
  {
    Spec(ReadKids(x.tree)[i], x.path + [i], SaturatingAdd(x.weight, RowCount(x.tree)))
  }

  ghost predicate IteratorFree(workers: seq<Pc>) {
    forall v | 0 <= v < |workers| :: !workers[v].Pulling?
  }

  /** Every sender of the result channel is gone. */
  ghost predicate Disconnected(workers: seq<Pc>) {
    forall v | 0 <= v < |workers| :: workers[v].Exited?
  }

  ghost predicate Init(c: Config, s: State) {
    s == State(
           Shared([Spec(c.root, [0], ROOT_WEIGHT)], [], 1, [], false, false, seq(c.workers, _ => 0)),
           seq(c.workers, _ => Idle),
           Reorder(Top, [], OM.START, [], false))
  }

  // ---- Workers: from (h, pc) to (h', pc') ----

  /** An element moves from the spec channel into the heap. */
  function Received(h: Shared): Shared
    requires h.chan != []
  {
    h.(chan := h.chan[1..], heap := h.heap + [h.chan[0]])
  }

  /** `PriorityQueueIter::try_next`, one shared access at a time. */
  ghost predicate PullStep(phase: Phase, h: Shared, h': Shared, pc': Pc) {
    match phase
    case AtTop =>
      h' == h && pc' == if h.stop then Exited else Pulling(Drain)
    case Drain =>
      if h.chan != [] then
        h' == Received(h) && pc' == Pulling(Drain)
      else
        h' == h.(pushed := seq(|h.pushed|, _ => 0)) && pc' == Pulling(Check)
    case Check =>
      if h.heap != [] then
        exists i: nat :: SpecTop(h.heap, i) && h' == h.(heap := Without(h.heap, i)) && pc' == Started(h.heap[i])
      else
        h' == h && pc' == if h.pending == 0 then Exited else Pulling(Wait)
    case Wait =>
      pc' == Pulling(AtTop) && h' == if h.chan != [] then Received(h) else h
  }

  /** The send half of `PriorityQueue::push`: it blocks while the channel is full. It cannot
      fail, because the receiver lives in the work iterator as long as this worker runs. */
  ghost predicate SendStep(c: Config, w: nat, child: Spec, h: Shared, h': Shared) {
    && |h.chan| < c.capacity
    && w < |h.pushed|
    && h' == h.(chan := h.chan + [child], pushed := h.pushed[w := h.pushed[w] + 1])
  }

  /** The result a directory reports: the streamed children if there are any, and else
      those of its rows. */
  function Result(x: Spec, sent: nat): Ordered {
    Ordered(x.tree, x.path, if sent == 0 then |ReadKids(x.tree)| else sent)
  }

  /** `send_read_dir_result`, which blocks while the channel is full, and what the worker does next. */
  ghost predicate ResultStep(c: Config, x: Spec, sent: nat, h: Shared, h': Shared, pc': Pc) {
    if h.receiverGone then
      h' == h && pc' == Completing
    else
      && |h.results| < c.capacity
      && h' == h.(results := h.results + [Result(x, sent)])
      && pc' == if sent == 0 then Bulk(x, 0) else Completing
  }

  /** `multi_threaded_walk_dir` with the read callback inside it, and the pull around it. */
  ghost predicate WorkerMoves(c: Config, w: nat, free: bool, h: Shared, pc: Pc, h': Shared, pc': Pc) {
    match pc
    case Idle =>
      free && h' == h && pc' == Pulling(AtTop)
    case Pulling(phase) =>
      PullStep(phase, h, h', pc')
    case Started(x) =>
      h' == h && pc' == if h.stop then Completing else if x.tree.streamed != [] then Streaming(x, 0) else Sending(x, 0)
    case Streaming(x, sent) =>
      // each remaining child is skipped once the stop flag is up
      if h.stop || sent >= |x.tree.streamed| then
        h' == h && pc' == Sending(x, sent)
      else
        h' == h.(pending := h.pending + 1) && pc' == StreamSend(x, sent)
    case StreamSend(x, sent) =>
      sent < |x.tree.streamed| && SendStep(c, w, StreamedChild(x, sent), h, h') && pc' == Streaming(x, sent + 1)
    case Sending(x, sent) =>
      ResultStep(c, x, sent, h, h', pc')
    case Bulk(x, sent) =>
      if sent >= |ReadKids(x.tree)| then
        h' == h && pc' == Completing
      else
        h' == h.(pending := h.pending + 1) && pc' == BulkSend(x, sent)
    case BulkSend(x, sent) =>
      sent < |ReadKids(x.tree)| && SendStep(c, w, BulkChild(x, sent), h, h') && pc' == Bulk(x, sent + 1)
    case Completing =>
      h' == h.(pending := h.pending - 1) && pc' == Idle
    case Exited =>
      false
  }

  // ---- Consumer: from (results, r) to (results', r') ----

  /** The heap's top is the awaited directory: all that `peek` can tell. */
  ghost predicate TopMatches(r: Reorder) {
    exists i: nat :: ResultTop(r.buffer, i) && r.buffer[i].path == r.matcher.lookingFor
  }

  /** The awaited directory is popped, handed out, and the matcher moves past it. */
  ghost predicate YieldStep(r: Reorder, r': Reorder) {
    exists i: nat ::
      && ResultTop(r.buffer, i) && r.buffer[i].path == r.matcher.lookingFor
      && r' == r.(pc := Top, buffer := Without(r.buffer, i),
                  matcher := OM.Advance(r.matcher, r.buffer[i].childCount), yielded := r.yielded + [r.buffer[i]])
  }

  /** After the disconnect: whatever is on top is handed out, and the matcher stays. */
  ghost predicate FallbackStep(r: Reorder, r': Reorder) {
    exists i: nat ::
      && ResultTop(r.buffer, i)
      && r' == r.(pc := Top, buffer := Without(r.buffer, i), yielded := r.yielded + [r.buffer[i]], stray := true)
  }

  /** `OrderedQueueIter::next` with `try_next_strict` inside it. */
  ghost predicate ConsumerMoves(c: Config, stop: bool, disconnected: bool,
                                results: seq<Ordered>, r: Reorder, results': seq<Ordered>, r': Reorder) {
    match r.pc
    case Top =>
      results' == results && r' == r.(pc := if stop then Done else if TopMatches(r) then Checking else Draining)
    case Draining =>
      if |r.buffer| < c.maxBuffer && results != [] then
        results' == results[1..] && r' == r.(buffer := r.buffer + [results[0]])
      else
        results' == results && r' == r.(pc := Checking)
    case Checking =>
      && results' == results
      && if TopMatches(r) then YieldStep(r, r')
         else if r.matcher.lookingFor == [] then r' == r.(pc := Done)
         else r' == r.(pc := Waiting) || r' == r.(pc := Top)  // the deadline may have passed
    case Waiting =>
      if results != [] then
        results' == results[1..] && r' == r.(pc := Top, buffer := r.buffer + [results[0]])
      else
        && results' == results
        && if !disconnected then r' == r.(pc := Top)
           else if TopMatches(r) then YieldStep(r, r')
           else if r.buffer != [] then FallbackStep(r, r')
           else r' == r.(pc := Done)
    case Done =>
      false
  }

  // ---- The whole system ----

  datatype Actor = Worker(id: nat) | Consumer | Owner

  ghost predicate WorkerStep(c: Config, s: State, w: nat, s': State) {
    && w < |s.workers|
    && |s'.workers| == |s.workers|
    && WorkerMoves(c, w, IteratorFree(s.workers), s.shared, s.workers[w], s'.shared, s'.workers[w])
    && s'.workers == s.workers[w := s'.workers[w]]
    && s'.reorder == s.reorder
  }

  ghost predicate ConsumerStep(c: Config, s: State, s': State) {
    && ConsumerMoves(c, s.shared.stop, Disconnected(s.workers),
                     s.shared.results, s.reorder, s'.shared.results, s'.reorder)
    && s'.shared == s.shared.(results := s'.shared.results)
    && s'.workers == s.workers
  }

  /** The owner gives up: the stop flag goes up, at any moment, and later the receiver is dropped. */
  ghost predicate OwnerStep(s: State, s': State) {
    && s'.workers == s.workers
    && (|| (!s.shared.stop && s'.shared == s.shared.(stop := true) && s'.reorder == s.reorder)
        || (&& s.shared.stop && !s.shared.receiverGone && s.reorder.pc in {Top, Done}
            && s'.shared == s.shared.(receiverGone := true) && s'.reorder == s.reorder.(pc := Done)))
  }

  ghost predicate Step(c: Config, s: State, a: Actor, s': State) {
    match a
    case Worker(w) => WorkerStep(c, s, w, s')
    case Consumer => ConsumerStep(c, s, s')
    case Owner => OwnerStep(s, s')
  }

  ghost predicate Next(c: Config, s: State, s': State) {
    exists a :: Step(c, s, a, s')
  }

  /** A finite run from the initial state, and the states runs reach. */
  ghost predicate IsRun(c: Config, run: seq<State>) {
    && run != [] && Init(c, run[0])
    && forall i | 0 <= i < |run| - 1 :: Next(c, run[i], run[i + 1])
  }

  ghost predicate Reachable(c: Config, s: State) {
    exists run :: IsRun(c, run) && run[|run| - 1] == s
  }

  /** There is at least one worker, and the channels hold at least one element. */
  ghost predicate Sensible(c: Config) {
    c.workers >= 1 && c.capacity >= 1
  }

  // ---- What the steps take and make ----

  /** The directory a worker takes is a lightest one of the heap and, among those, the first by index
      path; and it is the only one that leaves the heap. */
  lemma {:induction false} PulledIsLightest(h: Shared, h': Shared, x: Spec)
    requires PullStep(Check, h, h', Started(x))
    ensures x in h.heap && multiset(h'.heap) + multiset{x} == multiset(h.heap)
    ensures forall y | y in h.heap ::
              x.weight < y.weight || (x.weight == y.weight && (x.path == y.path || Before(x.path, y.path)))
  {
    var i: nat :| SpecTop(h.heap, i) && h' == h.(heap := Without(h.heap, i)) && x == h.heap[i];
    SpecTopIsLightest(h.heap, i);
    WithoutOne(h.heap, i);
  }

  /** The weights: the root has half the largest 64-bit number; a child streamed is one heavier than
      its parent, and one scheduled from the rows by the number of rows, up to that largest number. */
  lemma {:induction false} ChildWeights(x: Spec, i: nat)
    ensures ROOT_WEIGHT == 0x7FFF_FFFF_FFFF_FFFF
    ensures i < |x.tree.streamed| ==>
              var w := StreamedChild(x, i).weight;
              w <= x.weight + 1 && w <= 0xFFFF_FFFF_FFFF_FFFF && (w == x.weight + 1 || w == 0xFFFF_FFFF_FFFF_FFFF)
    ensures i < |ReadKids(x.tree)| ==>
              var w, n := BulkChild(x, i).weight, |x.tree.read.rows|;
              w <= x.weight + n && w <= 0xFFFF_FFFF_FFFF_FFFF && (w == x.weight + n || w == 0xFFFF_FFFF_FFFF_FFFF)
  {
  }
}
