/** The serial walker: a stack of directories to read (src/core/read_dir_iter.rs:141-162). */
module SerialWalk {
  import opened Trees

  // ---- The reference: recursive preorder over the rows ----

  function ListTree(t: Tree): (r: seq<ReadResult>)
    ensures r != [] && r[0] == t.read
  {
    [t.read] + match t.read
               case ReadErr(_) => []
               case ReadOk(rows) => ListRows(rows)
  }

  function ListRows(rows: seq<Row>): seq<ReadResult> {
    if rows == [] then []
    else (match rows[0]
          case RowOk(_, _, Some(t)) => ListTree(t)
          case _ => []) + ListRows(rows[1..])
  }

  function ListAll(ts: seq<Tree>): seq<ReadResult> {
    if ts == [] then [] else ListTree(ts[0]) + ListAll(ts[1..])
  }

  lemma {:induction false} ListRowsIsListAll(rows: seq<Row>)
    ensures ListRows(rows) == ListAll(RowKids(rows))
  {
    if rows != [] {
      ListRowsIsListAll(rows[1..]);
      if rows[0].RowOk? && rows[0].child.Some? {
        assert RowKids(rows)[1..] == RowKids(rows[1..]);
      }
    }
  }

  lemma {:induction false} ListTreeSplits(t: Tree)
    ensures ListTree(t) == [t.read] + ListAll(ReadKids(t))
  {
    if t.read.ReadOk? {
      ListRowsIsListAll(t.read.rows);
    }
  }

  lemma {:induction false} ReadsConcat(a: seq<Node>, b: seq<Node>)
    ensures Reads(a + b) == Reads(a) + Reads(b)
  {
  }

  /** The index paths do not matter: the serial preorder lists the same results. */
  lemma {:induction false} ListTreeIsPre(t: Tree, p: seq<nat>)
    ensures Reads(Pre(Serial, t, p)) == ListTree(t)
    decreases t, |Kids(Serial, t)| + 1
  {
    ListTreeSplits(t);
    ListKidsIsPre(t, p, 0);
    assert ReadKids(t)[0..] == ReadKids(t);
    ReadsConcat([Node(p, t)], PreKids(Serial, t, p, 0));
  }

  lemma {:induction false} ListKidsIsPre(t: Tree, p: seq<nat>, i: nat)
    requires i <= |Kids(Serial, t)|
    ensures Reads(PreKids(Serial, t, p, i)) == ListAll(ReadKids(t)[i..])
    decreases t, |Kids(Serial, t)| - i
  {
    var kids := Kids(Serial, t);
    if i < |kids| {
      ListTreeIsPre(kids[i], p + [i]);
      ListKidsIsPre(t, p, i + 1);
      ReadsConcat(Pre(Serial, kids[i], p + [i]), PreKids(Serial, t, p, i + 1));
      assert kids[i..][1..] == kids[i + 1..];
    }
  }

  // ---- The stack ----

  /** What is still to come: the top of the stack first. */
  function StackOutput(stack: seq<Tree>): seq<ReadResult> {
    if stack == [] then [] else ListTree(stack[|stack| - 1]) + StackOutput(stack[..|stack| - 1])
  }

  /** Pushing children in reverse leaves them to be popped in order. */
  lemma {:induction false} PushedReversed(stack: seq<Tree>, kids: seq<Tree>, i: nat, pushed: seq<Tree>)
    requires i < |kids|
    requires StackOutput(pushed) == ListAll(kids[i + 1..]) + StackOutput(stack)
    ensures StackOutput(pushed + [kids[i]]) == ListAll(kids[i..]) + StackOutput(stack)
  {
    assert (pushed + [kids[i]])[..|pushed|] == pushed;
    assert kids[i..][1..] == kids[i + 1..];
  }

  lemma {:induction false} PoppedOutput(stack: seq<Tree>)
    requires stack != []
    ensures var top, below := stack[|stack| - 1], stack[..|stack| - 1];
            StackOutput(stack) == [top.read] + (ListAll(ReadKids(top)) + StackOutput(below))
  {
    ListTreeSplits(stack[|stack| - 1]);
  }

  class StackWalker {
    var stack: seq<Tree>

    constructor (specs: seq<Tree>)
      ensures stack == specs
    {
      stack := specs;
    }

    /** Hands out the next result of what was to come, and leaves the rest to come. */
    method Next() returns (result: Option<ReadResult>)
      modifies this
      ensures result == None <==> old(stack) == []
      ensures result == None ==> stack == []
      ensures result.Some? ==> StackOutput(old(stack)) == [result.value] + StackOutput(stack)
    {
      if |stack| == 0 {
        return None;
      }
      PoppedOutput(stack);
      var spec := stack[|stack| - 1];
      stack := stack[..|stack| - 1];
      ghost var below := stack;
      if spec.read.ReadOk? {
        var specs := RowKids(spec.read.rows);
        var i := |specs|;
        while i > 0
          invariant 0 <= i <= |specs|
          invariant specs == ReadKids(spec)
          invariant StackOutput(stack) == ListAll(specs[i..]) + StackOutput(below)
        {
          i := i - 1;
          PushedReversed(below, specs, i, stack);
          stack := stack + [specs[i]];
        }
        assert specs[0..] == specs;
      }
      assert StackOutput(stack) == ListAll(ReadKids(spec)) + StackOutput(below);
      result := Some(spec.read);
    }
  }

  /** A whole serial walk of one root is the preorder of the directories the rows ask for. */
  method WalkAll(root: Tree) returns (output: seq<ReadResult>)
    ensures output == Reads(Pre(Serial, root, [0]))
  {
    var walker := new StackWalker([root]);
    output := [];
    ListTreeIsPre(root, [0]);
    var more := true;
    while more
      invariant output + StackOutput(walker.stack) == ListTree(root)
      invariant !more ==> walker.stack == []
      decreases more, |StackOutput(walker.stack)|
    {
      var result := walker.Next();
      match result
      case Some(r) => output := output + [r];
      case None => more := false;
    }
  }
}
