/** The whole library: a walk, parallel or serial, feeding the entry iterator. It starts from one
    root row at depth zero (src/lib.rs:565-587), cut at the depth limit. */
module Pipeline {
  import opened Trees
  import opened Protocol
  import opened Safety
  import opened SerialWalk
  import opened EntryIter
  import opened DepthCut

  lemma {:induction false} RootRowCut(maxDepth: nat, name: string, t: Tree)
    ensures CutRows(maxDepth, [RowOk(name, 0, Some(t))]) == [RowOk(name, 0, Some(Cut(maxDepth, t, 0)))]
  {
  }

  lemma {:induction false} RootListing(name: string, t: Tree)
    ensures ListRows([RowOk(name, 0, Some(t))]) == Reads(Pre(Serial, t, [0]))
  {
    ListTreeIsPre(t, [0]);
    assert ListTree(t) + [] == ListTree(t);
  }

  /** End to end. Take any tree, any depth limits, any number of workers, capacity and buffer
      limit, and any interleaving. When an unstopped parallel walk of an aligned tree has returned None,
      the entry iterator fed with its output yields exactly the entries between the limits, in
      recursive preorder, and has used up the output. */
  lemma {:induction false} ParallelEntries(c: Config, s: State, t: Tree, name: string, minDepth: nat, maxDepth: nat)
    requires Sensible(c) && Reachable(c, s) && !s.shared.stop && s.reorder.pc == Done
    requires c.root == Cut(maxDepth, t, 0) && Aligned(t)
    requires Levelled([RowOk(name, 0, Some(t))], 0)
    ensures Yields(minDepth, Some(Output(s)), [[RowOk(name, 0, Some(c.root))]])
         == Future(Keep(minDepth, maxDepth, Everything([RowOk(name, 0, Some(t))], 0)), Some([]))
  {
    AlignedCut(maxDepth, t, 0);
    OutputIsSerial(c, s);
    RootListing(name, c.root);
    RootRowCut(maxDepth, name, t);
    IterationFlattens(minDepth, [RowOk(name, 0, Some(c.root))]);
    LimitsKeep(minDepth, maxDepth, [RowOk(name, 0, Some(t))], 0);
  }

  lemma {:induction false} SerialYields(t: Tree, name: string, minDepth: nat, maxDepth: nat)
    requires Levelled([RowOk(name, 0, Some(t))], 0)
    ensures var root := Cut(maxDepth, t, 0);
            Yields(minDepth, Some(Reads(Pre(Serial, root, [0]))), [[RowOk(name, 0, Some(root))]])
            == Future(Keep(minDepth, maxDepth, Everything([RowOk(name, 0, Some(t))], 0)), Some([]))
  {
    var root := Cut(maxDepth, t, 0);
    RootListing(name, root);
    RootRowCut(maxDepth, name, t);
    IterationFlattens(minDepth, [RowOk(name, 0, Some(root))]);
    LimitsKeep(minDepth, maxDepth, [RowOk(name, 0, Some(t))], 0);
  }

  /** A serial walk feeding the entry iterator, run to the end, yields the same. */
  method SerialEntries(t: Tree, name: string, minDepth: nat, maxDepth: nat) returns (items: seq<Item>)
    requires Levelled([RowOk(name, 0, Some(t))], 0)
    ensures items == Keep(minDepth, maxDepth, Everything([RowOk(name, 0, Some(t))], 0))
  {
    var root := Cut(maxDepth, t, 0);
    var output := WalkAll(root);
    var iter := new DirEntryIter([RowOk(name, 0, Some(root))], minDepth, Some(output));
    ghost var start := iter.Ahead();
    SerialYields(t, name, minDepth, maxDepth);
    items := [];
    var more := true;
    while more
      invariant Cons(items, iter.Ahead()) == start
      invariant !more ==> iter.Ahead().items == []
      decreases more, |iter.Ahead().items|
    {
      var item := iter.Next();
      match item
      case Some(x) => items := items + [x];
      case None => more := false;
    }
  }
}
