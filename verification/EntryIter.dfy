/** The entry iterator: a stack of half-read row lists, and a source of read directories that
    is advanced by one whenever a row has children (src/core/dir_entry_iter.rs). */
module EntryIter {
  import opened Trees
  import opened SerialWalk

  datatype Fault = Fault(code: nat) | Busy

  /** What the iterator yields: an error row, or an entry with the error its own read ended in. */
  datatype Item =
    | ErrItem(error: Fault)
    | EntryItem(name: string, depth: nat, isParent: bool, readError: Option<Fault>)

  function AsItem(row: Row, readError: Option<Fault>): Item
    requires row.RowOk?
  {
    EntryItem(row.name, row.depth, row.child.Some?, readError)
  }

  /** An entry above `minDepth` is read but not shown. */
  function Shown(minDepth: nat, row: Row, readError: Option<Fault>): seq<Item>
    requires row.RowOk?
  {
    if row.depth >= minDepth then [AsItem(row, readError)] else []
  }

  // ---- The reference: recursive preorder flattening of the tree ----

  function FlattenRow(minDepth: nat, row: Row): seq<Item> {
    match row
    case RowErr(e) => [ErrItem(Fault(e))]
    case RowOk(_, _, None) => Shown(minDepth, row, None)
    case RowOk(_, _, Some(t)) =>
      match t.read
      case ReadErr(e) => Shown(minDepth, row, Some(Fault(e)))
      case ReadOk(rows) => Shown(minDepth, row, None) + FlattenRows(minDepth, rows)
  }

  function FlattenRows(minDepth: nat, rows: seq<Row>): seq<Item> {
    if rows == [] then [] else FlattenRow(minDepth, rows[0]) + FlattenRows(minDepth, rows[1..])
  }

  /** What a row yields of its own, before what is below it: an entry with the row's name and depth,
      which is a parent exactly if it has a directory behind it, with the error of that directory's
      read, and with none if there is no such error. */
  lemma {:induction false} OwnItem(minDepth: nat, row: Row)
    requires row.RowOk? && row.depth >= minDepth
    ensures FlattenRow(minDepth, row) != []
    ensures var item := FlattenRow(minDepth, row)[0];
            && item.EntryItem? && item.name == row.name && item.depth == row.depth
            && (item.isParent <==> row.child.Some?)
            && (forall e :: item.readError == Some(Fault(e)) <==>
                            row.child.Some? && row.child.value.read == ReadErr(e))
            && (item.readError == None <==> row.child.None? || row.child.value.read.ReadOk?)
  {
  }

  // ---- The iterator, run to its end ----

  /** What an iterator will yield, and what it will leave of its source. */
  datatype Future = Future(items: seq<Item>, source: Option<seq<ReadResult>>)

  function Cons(items: seq<Item>, rest: Future): Future {
    Future(items + rest.items, rest.source)
  }

  function SourceSize(source: Option<seq<ReadResult>>): nat {
    match source
    case None => 0
    case Some(s) => |s|
  }

  function StackSize(stack: seq<seq<Row>>): nat {
    if stack == [] then 0 else 1 + |stack[|stack| - 1]| + StackSize(stack[..|stack| - 1])
  }

  function Yields(minDepth: nat, source: Option<seq<ReadResult>>, stack: seq<seq<Row>>): Future
    decreases SourceSize(source), StackSize(stack)
  {
    if stack == [] then Future([], source)
    else
      var below, top := stack[..|stack| - 1], stack[|stack| - 1];
      if top == [] then Yields(minDepth, source, below)
      else
        var rest := below + [top[1..]];
        assert rest[..|rest| - 1] == below;
        match top[0]
        case RowErr(e) => Cons([ErrItem(Fault(e))], Yields(minDepth, source, rest))
        case RowOk(_, _, None) => Cons(Shown(minDepth, top[0], None), Yields(minDepth, source, rest))
        case RowOk(_, _, Some(_)) =>
          if source.None? then Cons([ErrItem(Busy)], Yields(minDepth, source, rest))
          else if source.value == [] then Cons(Shown(minDepth, top[0], Some(Busy)), Yields(minDepth, source, rest))
          else
            match source.value[0]
            case ReadErr(e) =>
              Cons(Shown(minDepth, top[0], Some(Fault(e))), Yields(minDepth, Some(source.value[1..]), rest))
            case ReadOk(rows) =>
              Cons(Shown(minDepth, top[0], None), Yields(minDepth, Some(source.value[1..]), rest + [rows]))
  }

  class DirEntryIter {
    const minDepth: nat
    var source: Option<seq<ReadResult>>
    var stack: seq<seq<Row>>

    constructor (rootRows: seq<Row>, minDepth: nat, source: Option<seq<ReadResult>>)
      ensures this.minDepth == minDepth && this.source == source && stack == [rootRows]
    {
      this.minDepth := minDepth;
      this.source := source;
      stack := [rootRows];
    }

    ghost function Ahead(): Future
      reads this
    {
      Yields(minDepth, source, stack)
    }

    /** `push_next_read_dir_results`: the next read directory goes on the stack, or its error comes back. */
    method PushNext() returns (error: Option<Fault>)
      requires source.Some?
      modifies this
      ensures old(source).value == [] ==> error == Some(Busy) && source == old(source) && stack == old(stack)
      ensures old(source).value != [] ==> source == Some(old(source).value[1..])
      ensures old(source).value != [] && old(source).value[0].ReadErr? ==>
                error == Some(Fault(old(source).value[0].error)) && stack == old(stack)
      ensures old(source).value != [] && old(source).value[0].ReadOk? ==>
                error == None && stack == old(stack) + [old(source).value[0].rows]
    {
      if |source.value| == 0 {
        return Some(Busy);
      }
      var result := source.value[0];
      source := Some(source.value[1..]);
      match result
      case ReadErr(e) => error := Some(Fault(e));
      case ReadOk(rows) => stack := stack + [rows]; error := None;
    }

    /** Yields the first item ahead and leaves the others ahead; at the end the stack is empty. */
    method Next() returns (item: Option<Item>)
      modifies this
      ensures item == None ==> old(Ahead()) == Ahead() && stack == [] && Ahead().items == []
      ensures item.Some? ==> old(Ahead()) == Cons([item.value], Ahead())
    {
      ghost var start := Ahead();
      while |stack| > 0
        invariant Ahead() == start
        decreases SourceSize(source), StackSize(stack)
      {
        var top := stack[|stack| - 1];
        if |top| == 0 {
          stack := stack[..|stack| - 1];
        } else {
          var row := top[0];
          ghost var below := stack[..|stack| - 1];
          stack := stack[|stack| - 1 := top[1..]];
          assert stack == below + [top[1..]];
          var readError := None;
          if row.RowErr? {
            return Some(ErrItem(Fault(row.error)));
          }
          if row.child.Some? {
            if source.None? {
              return Some(ErrItem(Busy));
            }
            readError := PushNext();
          }
          assert start == Cons(Shown(minDepth, row, readError), Ahead());
          if row.depth >= minDepth {
            return Some(EntryItem(row.name, row.depth, row.child.Some?, readError));
          }
          assert start == Ahead();
          assert stack[..|stack| - 1] == below || stack[..|stack| - 1] == below + [top[1..]];
        }
      }
      item := None;
    }
  }

  // ---- Fed with the directories in preorder, the iterator yields the flattening ----

  lemma {:induction false} ConsConcat(a: seq<Item>, b: seq<Item>, f: Future)
    ensures Cons(a + b, f) == Cons(a, Cons(b, f))
  {
  }

  /** A row without children is shown, or is an error. */
  lemma {:induction false} YieldsPlainRow(minDepth: nat, rows: seq<Row>, source: seq<ReadResult>, stack: seq<seq<Row>>)
    requires rows != [] && (rows[0].RowErr? || rows[0].child == None)
    ensures Yields(minDepth, Some(source), stack + [rows])
         == Cons(FlattenRow(minDepth, rows[0]), Yields(minDepth, Some(source), stack + [rows[1..]]))
  {
    assert (stack + [rows])[..|stack|] == stack;
  }

  /** A row with children pulls one directory: its rows go on top of the stack, or its error shows. */
  lemma {:induction false} YieldsParentRow(
    minDepth: nat, rows: seq<Row>, t: Tree, source: seq<ReadResult>, stack: seq<seq<Row>>)
    requires rows != [] && rows[0].RowOk? && rows[0].child == Some(t)
    ensures t.read.ReadErr? ==>
              Yields(minDepth, Some([t.read] + source), stack + [rows]) ==
              Cons(FlattenRow(minDepth, rows[0]), Yields(minDepth, Some(source), stack + [rows[1..]]))
    ensures t.read.ReadOk? ==>
              Yields(minDepth, Some([t.read] + source), stack + [rows]) ==
              Cons(Shown(minDepth, rows[0], None), Yields(minDepth, Some(source), stack + [rows[1..]] + [t.read.rows]))
  {
    assert (stack + [rows])[..|stack|] == stack;
    assert ([t.read] + source)[1..] == source;
  }

  /** Without a source a row with a directory behind it is a busy error; with an exhausted one it is
      an entry that carries that error. */
  lemma {:induction false} BusyItem(minDepth: nat, row: Row)
    requires row.RowOk? && row.child.Some? && row.depth >= minDepth
    ensures Yields(minDepth, None, [[row]]).items == [ErrItem(Busy)]
    ensures Yields(minDepth, Some([]), [[row]]).items == [EntryItem(row.name, row.depth, true, Some(Busy))]
  {
    var stack, left: seq<seq<Row>> := [[row]], [[]];
    assert [row][1..] == [] && stack[..0] + [[]] == left && left[..0] == [];
    YieldsNothing(minDepth, None);
    YieldsNothing(minDepth, Some([]));
  }

  lemma {:induction false} YieldsNothing(minDepth: nat, source: Option<seq<ReadResult>>)
    ensures Yields(minDepth, source, [[]]) == Future([], source)
  {
    var left: seq<seq<Row>> := [[]];
    assert left[..0] == [];
  }

  /** One row list on top of the stack, with the directories below its rows at the front of
      the source: it is flattened, and exactly those directories are pulled. */
  lemma {:induction false} YieldsFlattened(minDepth: nat, rows: seq<Row>, tail: seq<ReadResult>, stack: seq<seq<Row>>)
    ensures Yields(minDepth, Some(ListRows(rows) + tail), stack + [rows])
         == Cons(FlattenRows(minDepth, rows), Yields(minDepth, Some(tail), stack))
    decreases rows
  {
    if rows == [] {
      assert (stack + [rows])[..|stack|] == stack;
      assert ListRows(rows) + tail == tail;
    } else {
      YieldsFlattened(minDepth, rows[1..], tail, stack);
      YieldsFlattenedFirst(minDepth, rows, ListRows(rows[1..]) + tail, stack);
      ConsConcat(FlattenRow(minDepth, rows[0]), FlattenRows(minDepth, rows[1..]), Yields(minDepth, Some(tail), stack));
      ListRowsFirst(rows, tail);
    }
  }

  lemma {:induction false} ListRowsFirst(rows: seq<Row>, tail: seq<ReadResult>)
    requires rows != []
    ensures rows[0].RowOk? && rows[0].child.Some? ==>
              ListRows(rows) + tail == ListTree(rows[0].child.value) + (ListRows(rows[1..]) + tail)
    ensures !(rows[0].RowOk? && rows[0].child.Some?) ==>
              ListRows(rows) + tail == ListRows(rows[1..]) + tail
  {
  }

  /** The first row of a list, and everything below it. */
  lemma {:induction false} YieldsFlattenedFirst(
    minDepth: nat, rows: seq<Row>, source: seq<ReadResult>, stack: seq<seq<Row>>)
    requires rows != []
    ensures rows[0].RowOk? && rows[0].child.Some? ==>
              Yields(minDepth, Some(ListTree(rows[0].child.value) + source), stack + [rows]) ==
              Cons(FlattenRow(minDepth, rows[0]), Yields(minDepth, Some(source), stack + [rows[1..]]))
    ensures !(rows[0].RowOk? && rows[0].child.Some?) ==>
              Yields(minDepth, Some(source), stack + [rows]) ==
              Cons(FlattenRow(minDepth, rows[0]), Yields(minDepth, Some(source), stack + [rows[1..]]))
    decreases rows, 0
  {
    if rows[0].RowOk? && rows[0].child.Some? {
      var t := rows[0].child.value;
      if t.read.ReadOk? {
        var inner, after := ListRows(t.read.rows) + source, stack + [rows[1..]];
        assert ListTree(t) + source == [t.read] + inner;
        YieldsParentRow(minDepth, rows, t, inner, stack);
        YieldsFlattened(minDepth, t.read.rows, source, after);
        ConsConcat(
          Shown(minDepth, rows[0], None), FlattenRows(minDepth, t.read.rows), Yields(minDepth, Some(source), after));
      } else {
        assert ListTree(t) + source == [t.read] + source;
        YieldsParentRow(minDepth, rows, t, source, stack);
      }
    } else {
      YieldsPlainRow(minDepth, rows, source, stack);
    }
  }

  /** The whole iteration from the root rows: the recursive flattening, every directory pulled
      once, and an empty stack and an exhausted source at the end. */
  lemma {:induction false} IterationFlattens(minDepth: nat, rootRows: seq<Row>)
    ensures Yields(minDepth, Some(ListRows(rootRows)), [rootRows]) == Future(FlattenRows(minDepth, rootRows), Some([]))
  {
    YieldsFlattened(minDepth, rootRows, [], []);
    assert ListRows(rootRows) + [] == ListRows(rootRows);
    assert [] + [rootRows] == [rootRows];
  }
}
