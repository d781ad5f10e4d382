/** Reading one directory: children scheduled while it is being enumerated, the retry loop
    around it, and the children scheduled from the finished rows
    (src/lib.rs, src/core/read_dir.rs, src/core/read_dir_iter.rs). */
module Streaming {
  import opened IndexPaths
  import opened Trees
  import opened Folds
  import P = Protocol

  const DT_UNKNOWN: nat := 0
  const DT_DIR: nat := 4
  const DT_LNK: nat := 10

  datatype FileType = Directory | Link | Other

  datatype IoError = IoError(code: nat, transient: bool)

  /** What following a link comes to. */
  datatype Target = Unreachable(error: IoError) | Reaches(fileType: FileType)

  /** A raw directory entry, what asking for its status answers, and what it links to. */
  datatype RawEntry = RawEntry(name: string, dType: nat, stat: Option<FileType>, target: Target)

  /** `canStream`: neither sorting nor a user's callback is in the way. */
  datatype Options = Options(skipHidden: bool, followLinks: bool, canStream: bool)

  /** One row of a finished read, and whether it has a children path. */
  datatype EntryRow = Built(name: string, isParent: bool) | NotBuilt(error: IoError)

  /** What does not change from entry to entry. `arrange` is sorting and the user's callback. */
  datatype Request = Request(
    path: seq<string>, contentsDepth: nat, state: nat, ancestors: nat, options: Options,
    arrange: seq<EntryRow> -> seq<EntryRow>)

  /** `ReadDirSpec`. */
  datatype ReadSpec = ReadSpec(depth: nat, path: seq<string>, state: nat, ancestors: nat)

  datatype Weighted = Weighted(spec: ReadSpec, path: Path, weight: nat)

  /** The finished `ReadDir`. */
  datatype ReadDir = ReadDir(rows: seq<EntryRow>, streamedChildCount: nat)

  datatype Outcome = Finished(dir: ReadDir) | Failed(error: IoError)

  // ---- From an entry to its row ----

  predicate Visible(o: Options, e: RawEntry) {
    !o.skipHidden || e.name == "" || e.name[0] != '.'
  }

  /** The type a row is given: the entry's own where it says one; the status is asked for only
      when the entry says nothing; and whatever remains counts as a plain file. */
  function FinalType(e: RawEntry): FileType {
    match e.dType
    case 4 => Directory
    case 10 => Link
    case 0 => if e.stat.Some? then e.stat.value else Other
    case _ => Other
  }

  function RowOf(o: Options, e: RawEntry): EntryRow {
    if o.followLinks && FinalType(e).Link? then
      match e.target
      case Unreachable(error) => NotBuilt(error)
      case Reaches(fileType) => Built(e.name, fileType.Directory?)
    else Built(e.name, FinalType(e).Directory?)
  }

  predicate HasChildren(row: EntryRow) {
    row.Built? && row.isParent
  }

  /** The streaming callback goes by the entry's own type. */
  predicate IsStreamed(o: Options, e: RawEntry) {
    e.dType == DT_DIR && Visible(o, e)
  }

  predicate IsBulk(o: Options, e: RawEntry) {
    Visible(o, e) && HasChildren(RowOf(o, e))
  }

  function RowOrNone(o: Options): RawEntry -> seq<EntryRow> {
    (e: RawEntry) => if o.skipHidden && "." <= e.name then [] else [RowOf(o, e)]
  }

  function StreamedName(o: Options): RawEntry -> seq<string> {
    (e: RawEntry) => if e.dType == 4 && !(o.skipHidden && "." <= e.name) then [e.name] else []
  }

  function BulkName(o: Options): RawEntry -> seq<string> {
    (e: RawEntry) => if IsBulk(o, e) then [e.name] else []
  }

  const PARENT_NAME: EntryRow -> seq<string> := (row: EntryRow) => if HasChildren(row) then [row.name] else []

  function Rows(o: Options, entries: seq<RawEntry>): seq<EntryRow> {
    Gather(entries, RowOrNone(o))
  }

  /** The directories that are scheduled while enumerating, and those the finished rows ask for. */
  function StreamedNames(o: Options, entries: seq<RawEntry>): seq<string> {
    Gather(entries, StreamedName(o))
  }

  function ParentNames(rows: seq<EntryRow>): seq<string> {
    Gather(rows, PARENT_NAME)
  }

  // ---- What a scheduled child is ----

  /** The directory of that name in the directory being read, one level deeper, with the state the
      request carries. */
  predicate IsChild(q: Request, spec: ReadSpec, name: string) {
    && |spec.path| == |q.path| + 1 && spec.path[..|q.path|] == q.path && spec.path[|q.path|] == name
    && spec.depth == q.contentsDepth && spec.state == q.state && spec.ancestors == q.ancestors
  }

  /** `scheduled` are the children from number `first` on, under the index paths `base + [first]`,
      `base + [first + 1]` and so on. */
  predicate IsDue(q: Request, scheduled: seq<Weighted>, names: seq<string>, first: nat, base: Path, weight: nat) {
    forall k | 0 <= k < |scheduled| ::
      && first + k < |names| && IsChild(q, scheduled[k].spec, names[first + k])
      && scheduled[k].path == base + [first + k] && scheduled[k].weight == weight
  }

  lemma {:induction false} DueNext(q: Request, scheduled: seq<Weighted>, was: seq<string>, names: seq<string>,
    first: nat, base: Path, weight: nat, next: Weighted)
    requires IsDue(q, scheduled, was, first, base, weight) && was <= names
    requires first + |scheduled| < |names| && IsChild(q, next.spec, names[first + |scheduled|])
    requires next.path == base + [first + |scheduled|] && next.weight == weight
    ensures IsDue(q, scheduled + [next], names, first, base, weight)
  {
  }

  /** A sum that stops at the largest 64-bit number. */
  function CappedSum(a: nat, b: nat): nat {
    if a + b <= 0xFFFF_FFFF_FFFF_FFFF then a + b else 0xFFFF_FFFF_FFFF_FFFF
  }

  /** `read_children_spec`. */
  function ReadChildrenSpec(q: Request, name: string): ReadSpec {
    ReadSpec(q.contentsDepth, q.path + [name], q.state, q.ancestors)
  }

  // ---- Scheduling from the finished rows ----

  /** `weighted_children_specs`: the children of the rows, without the first `skip`, numbered
      without gaps. */
  method WeightedChildrenSpecs(q: Request, dir: ReadDir, base: Path, parentWeight: nat) returns (specs: seq<Weighted>)
    ensures var names := ParentNames(dir.rows);
            var skip := dir.streamedChildCount;
            && |specs| == (if |names| <= skip then 0 else |names| - skip)
            && IsDue(q, specs, names, skip, base, CappedSum(parentWeight, |dir.rows|))
  {
    var skip := dir.streamedChildCount;
    var weight := P.SaturatingAdd(parentWeight, |dir.rows|);
    specs := [];
    var subdirCounter := 0;
    for i := 0 to |dir.rows|
      invariant subdirCounter == |ParentNames(dir.rows[..i])|
      invariant |specs| == if subdirCounter <= skip then 0 else subdirCounter - skip
      invariant IsDue(q, specs, ParentNames(dir.rows[..i]), skip, base, weight)
    {
      GatherNext(dir.rows, i, PARENT_NAME);
      if HasChildren(dir.rows[i]) {
        if subdirCounter >= skip {
          var child := Weighted(ReadChildrenSpec(q, dir.rows[i].name), base + [subdirCounter], weight);
          DueNext(q, specs, ParentNames(dir.rows[..i]), ParentNames(dir.rows[..i + 1]), skip, base, weight, child);
          specs := specs + [child];
        }
        subdirCounter := subdirCounter + 1;
      }
    }
    assert dir.rows[..|dir.rows|] == dir.rows;
  }

  // ---- Scheduling while enumerating ----

  /** The streaming callback, entry by entry. `halted` tells at which entries the walk turns a
      child down. Whatever it turns down, the children are numbered from zero without gaps. */
  method StreamDispatch(q: Request, entries: seq<RawEntry>, halted: seq<bool>, base: Path, parentWeight: nat)
    returns (scheduled: seq<Weighted>, count: nat)
    requires |halted| == |entries|
    ensures count == |scheduled|
    ensures forall k | 0 <= k < |scheduled| :: scheduled[k].path == base + [k]
    ensures (forall i | 0 <= i < |halted| :: !halted[i]) ==>
              var names := StreamedNames(q.options, entries);
              && count == |names|
              && IsDue(q, scheduled, names, 0, base, CappedSum(parentWeight, 1))
  {
    scheduled, count := [], 0;
    var childIndexPath := base + [0];
    var weight := P.SaturatingAdd(parentWeight, 1);
    for i := 0 to |entries|
      invariant count == |scheduled|
      invariant |childIndexPath| == |base| + 1 && childIndexPath[..|base|] == base
      invariant forall k | 0 <= k < |scheduled| :: scheduled[k].path == base + [k]
      invariant (forall j | 0 <= j < |halted| :: !halted[j]) ==>
                  && count == |StreamedNames(q.options, entries[..i])|
                  && IsDue(q, scheduled, StreamedNames(q.options, entries[..i]), 0, base, weight)
    {
      GatherNext(entries, i, StreamedName(q.options));
      if !halted[i] && entries[i].dType == DT_DIR && Visible(q.options, entries[i]) {
        childIndexPath := childIndexPath[|base| := count];
        assert childIndexPath == base + [count];
        var spec := ReadSpec(q.contentsDepth, q.path + [entries[i].name], q.state, q.ancestors);
        scheduled := scheduled + [Weighted(spec, childIndexPath, weight)];
        count := count + 1;
      }
    }
    assert entries[..|entries|] == entries;
  }

  // ---- When streamed and bulk scheduling agree ----

  /** For every entry that makes a row: it is a directory to the enumeration exactly when its
      row has children. */
  predicate AlignedListing(o: Options, entries: seq<RawEntry>) {
    forall i | 0 <= i < |entries| :: IsStreamed(o, entries[i]) <==> IsBulk(o, entries[i])
  }

  /** The entries on which the two disagree: a directory that does not say so, and a link that is
      followed to one. */
  lemma {:induction false} MisalignedExactly(o: Options, e: RawEntry)
    requires Visible(o, e)
    ensures !(IsStreamed(o, e) <==> IsBulk(o, e)) <==>
            || (e.dType == DT_UNKNOWN && e.stat == Some(Directory))
            || (o.followLinks && FinalType(e) == Link && e.target == Reaches(Directory))
  {
  }

  lemma {:induction false} RowsThenNames(o: Options, entries: seq<RawEntry>)
    ensures ParentNames(Rows(o, entries)) == Gather(entries, BulkName(o))
  {
    if entries != [] {
      RowsThenNames(o, entries[1..]);
      if Visible(o, entries[0]) {
        var row, rest := RowOf(o, entries[0]), Rows(o, entries[1..]);
        assert ([row] + rest)[1..] == rest;
      } else {
        assert Rows(o, entries) == [] + Rows(o, entries[1..]) == Rows(o, entries[1..]);
      }
    }
  }

  /** Whatever is streamed is also among the rows' children, so the lists differ in length unless
      they are the same. */
  lemma {:induction false} StreamedWithinBulk(o: Options, entries: seq<RawEntry>)
    ensures |StreamedNames(o, entries)| <= |Gather(entries, BulkName(o))|
    ensures |StreamedNames(o, entries)| == |Gather(entries, BulkName(o))| <==> AlignedListing(o, entries)
    ensures AlignedListing(o, entries) ==> StreamedNames(o, entries) == Gather(entries, BulkName(o))
  {
    if entries != [] {
      StreamedWithinBulk(o, entries[1..]);
      AlignedSplits(o, entries);
      assert IsStreamed(o, entries[0]) ==> IsBulk(o, entries[0]);
    }
  }

  lemma {:induction false} AlignedSplits(o: Options, entries: seq<RawEntry>)
    requires entries != []
    ensures AlignedListing(o, entries) <==>
            (IsStreamed(o, entries[0]) <==> IsBulk(o, entries[0])) && AlignedListing(o, entries[1..])
  {
    forall i | 1 <= i < |entries| ensures entries[i] == entries[1..][i - 1] {
    }
  }

  /** Streaming schedules the very children, in the very order, that the finished rows would, if
      and only if the listing is aligned; if it is not, it schedules fewer. */
  lemma {:induction false} StreamingIsBulk(o: Options, entries: seq<RawEntry>)
    ensures StreamedNames(o, entries) == ParentNames(Rows(o, entries)) <==> AlignedListing(o, entries)
    ensures !AlignedListing(o, entries) ==> |StreamedNames(o, entries)| < |ParentNames(Rows(o, entries))|
  {
    RowsThenNames(o, entries);
    StreamedWithinBulk(o, entries);
  }

  /** The scheduled children are those of the rows, in their order. */
  predicate SpecsMatch(q: Request, scheduled: seq<Weighted>, names: seq<string>) {
    |scheduled| == |names| && forall k | 0 <= k < |scheduled| :: IsChild(q, scheduled[k].spec, names[k])
  }

  // ---- One attempt, and the retry loop ----

  /** What one attempt meets: the entries it gets to see, at which of them the walk turns a child
      down, and the error that breaks it off, if any. */
  datatype Attempt = Attempt(entries: seq<RawEntry>, halted: seq<bool>, failure: Option<IoError>)

  predicate AttemptOk(a: Attempt) {
    |a.halted| == |a.entries|
  }

  predicate Unhalted(a: Attempt) {
    forall i | 0 <= i < |a.halted| :: !a.halted[i]
  }

  /** The rows a finished attempt returns. */
  function RowsOf(q: Request, a: Attempt): seq<EntryRow> {
    var rows := Rows(q.options, a.entries);
    if q.options.canStream then rows else q.arrange(rows)
  }

  /** What an attempt returns that has scheduled so many children. */
  function OutcomeOf(q: Request, a: Attempt, count: nat): Outcome {
    match a.failure
    case None => Finished(ReadDir(RowsOf(q, a), count))
    case Some(error) => if count > 0 then Finished(ReadDir([NotBuilt(error)], count)) else Failed(error)
  }

  /** `make_dir_entry_linux` and `process_dir_entry_result`: the row of one entry. */
  method MakeRow(o: Options, e: RawEntry) returns (row: EntryRow)
    ensures row == RowOf(o, e)
    ensures row.Built? ==> row.name == e.name
    ensures e.dType == DT_DIR ==> row == Built(e.name, true)
    ensures e.dType == DT_UNKNOWN && (e.stat == None || e.stat == Some(Other)) ==> row == Built(e.name, false)
    ensures e.dType == DT_UNKNOWN && e.stat == Some(Directory) ==> row == Built(e.name, true)
    ensures e.dType == DT_LNK || (e.dType == DT_UNKNOWN && e.stat == Some(Link)) ==>
              row == if !o.followLinks then Built(e.name, false)
                     else match e.target
                          case Unreachable(error) => NotBuilt(error)
                          case Reaches(fileType) => Built(e.name, fileType == Directory)
    ensures e.dType != DT_DIR && e.dType != DT_LNK && e.dType != DT_UNKNOWN ==> row == Built(e.name, false)
  {
    var fileType := Other;
    if e.dType == DT_DIR {
      fileType := Directory;
    } else if e.dType == DT_LNK {
      fileType := Link;
    }
    if e.dType == DT_UNKNOWN && e.stat.Some? {
      fileType := e.stat.value;
    }
    if o.followLinks && fileType.Link? {
      if e.target.Unreachable? {
        return NotBuilt(e.target.error);
      }
      fileType := e.target.fileType;
    }
    row := Built(e.name, fileType.Directory?);
  }

  method MakeRows(o: Options, entries: seq<RawEntry>) returns (rows: seq<EntryRow>)
    ensures rows == Rows(o, entries)
  {
    rows := [];
    for i := 0 to |entries|
      invariant rows == Rows(o, entries[..i])
    {
      GatherNext(entries, i, RowOrNone(o));
      if Visible(o, entries[i]) {
        var row := MakeRow(o, entries[i]);
        rows := rows + [row];
      }
    }
    assert entries[..|entries|] == entries;
  }

  /** `read_dir_linux_via_getdents`. An attempt that fails after it has scheduled children does not
      report the failure: it returns a single error row with their number. */
  method ReadOnce(q: Request, a: Attempt, hasContext: bool, base: Path, parentWeight: nat)
    returns (outcome: Outcome, scheduled: seq<Weighted>)
    requires AttemptOk(a)
    ensures forall k | 0 <= k < |scheduled| :: scheduled[k].path == base + [k]
    ensures !hasContext || !q.options.canStream ==> scheduled == []
    ensures hasContext && q.options.canStream && Unhalted(a) ==>
              SpecsMatch(q, scheduled, StreamedNames(q.options, a.entries))
    ensures outcome == OutcomeOf(q, a, |scheduled|)
  {
    var useStreaming := hasContext && q.options.canStream;
    scheduled := [];
    var streamedCount := 0;
    if useStreaming {
      scheduled, streamedCount := StreamDispatch(q, a.entries, a.halted, base, parentWeight);
    }
    match a.failure
    case Some(error) =>
      if streamedCount > 0 {
        outcome := Finished(ReadDir([NotBuilt(error)], streamedCount));
      } else {
        outcome := Failed(error);
      }
    case None =>
      var rows := MakeRows(q.options, a.entries);
      if !q.options.canStream {
        rows := q.arrange(rows);
      }
      outcome := Finished(ReadDir(rows, streamedCount));
  }

  predicate TransientFailure(a: Attempt) {
    a.failure.Some? && a.failure.value.transient
  }

  /** Which attempt, from the `k`-th on, settles a read that nothing halts: the last there is, one
      that does not fail for the moment only, or the first if it schedules something. */
  function Settles(o: Options, attempts: seq<Attempt>, hasContext: bool, k: nat): (used: nat)
    requires k < |attempts|
    ensures k <= used < |attempts|
    decreases |attempts| - k
  {
    if k + 1 == |attempts| || !TransientFailure(attempts[k]) then k
    else if k == 0 && hasContext && o.canStream && StreamedNames(o, attempts[0].entries) != [] then k
    else Settles(o, attempts, hasContext, k + 1)
  }

  /** The first attempt has streamed something. */
  predicate StreamsFirst(o: Options, attempts: seq<Attempt>, hasContext: bool)
    requires attempts != []
  {
    hasContext && o.canStream && StreamedNames(o, attempts[0].entries) != []
  }

  /** An attempt settles the read exactly if all before it failed for the moment and scheduled
      nothing, and it is the last, does not fail for the moment only, or scheduled something. */
  lemma {:induction false} SettlesExactly(o: Options, attempts: seq<Attempt>, hasContext: bool, k: nat, used: nat)
    requires k <= used < |attempts|
    ensures Settles(o, attempts, hasContext, k) == used <==>
            && (forall i | k <= i < used :: TransientFailure(attempts[i]))
            && (k == 0 && used > 0 ==> !StreamsFirst(o, attempts, hasContext))
            && (|| used + 1 == |attempts| || !TransientFailure(attempts[used])
                || (used == 0 && StreamsFirst(o, attempts, hasContext)))
    decreases |attempts| - k
  {
    if k < used {
      SettlesExactly(o, attempts, hasContext, k + 1, used);
    }
  }

  /** `retry_transient_io` around it: only the first attempt has the streaming context, if there
      is one. The attempts before the last one all failed for the moment and scheduled nothing, so
      whatever was scheduled was scheduled once, by the attempt that is reported. */
  method ReadWithRetries(q: Request, attempts: seq<Attempt>, context: bool, base: Path, parentWeight: nat)
    returns (outcome: Outcome, scheduled: seq<Weighted>, used: nat)
    requires attempts != [] && forall i | 0 <= i < |attempts| :: AttemptOk(attempts[i])
    ensures used < |attempts| && forall i | 0 <= i < used :: TransientFailure(attempts[i])
    ensures forall k | 0 <= k < |scheduled| :: scheduled[k].path == base + [k]
    ensures scheduled != [] ==> used == 0 && context && q.options.canStream
    ensures used == 0 && context && q.options.canStream && Unhalted(attempts[0]) ==>
              SpecsMatch(q, scheduled, StreamedNames(q.options, attempts[0].entries))
    ensures outcome == OutcomeOf(q, attempts[used], |scheduled|)
    ensures outcome.Failed? && outcome.error.transient ==> used == |attempts| - 1
    ensures Unhalted(attempts[0]) ==> used == Settles(q.options, attempts, context, 0)
  {
    var maxRetries := |attempts| - 1;
    var hasContext := context;
    used := 0;
    while true
      invariant used <= maxRetries
      invariant hasContext == (context && used == 0)
      invariant forall i | 0 <= i < used :: TransientFailure(attempts[i])
      invariant Unhalted(attempts[0]) ==>
                  Settles(q.options, attempts, context, used) == Settles(q.options, attempts, context, 0)
      decreases maxRetries - used
    {
      outcome, scheduled := ReadOnce(q, attempts[used], hasContext, base, parentWeight);
      hasContext := false;
      if outcome.Finished? {
        return;
      }
      if used < maxRetries && outcome.error.transient {
        used := used + 1;
        continue;
      }
      return;
    }
  }

  /** `multi_threaded_walk_dir` for one directory: what is scheduled during and after the read,
      and the child count reported with the result. Under any sequence of failures every child
      is scheduled once, under the index paths `base + [0]` to `base + [childCount - 1]`. If
      nothing was streamed the children are those of the rows; if something was, and nothing was
      turned down, exactly when the read did not break off and met an aligned listing. */
  method ReadAndSchedule(q: Request, attempts: seq<Attempt>, base: Path, parentWeight: nat)
    returns (outcome: Outcome, children: seq<Weighted>, childCount: nat, ghost used: nat)
    requires attempts != [] && forall i | 0 <= i < |attempts| :: AttemptOk(attempts[i])
    ensures childCount == |children|
    ensures forall k | 0 <= k < childCount :: children[k].path == base + [k]
    ensures used < |attempts| && (Unhalted(attempts[0]) ==> used == Settles(q.options, attempts, true, 0))
    ensures outcome.Failed? ==> childCount == 0 && attempts[used].failure == Some(outcome.error)
    ensures outcome.Finished? ==>
              outcome.dir.rows == match attempts[used].failure
                                  case None => RowsOf(q, attempts[used])
                                  case Some(error) => [NotBuilt(error)]
    ensures outcome.Finished? && outcome.dir.streamedChildCount == 0 ==>
              SpecsMatch(q, children, ParentNames(outcome.dir.rows))
    ensures outcome.Finished? && outcome.dir.streamedChildCount > 0 ==> used == 0 && q.options.canStream
    ensures outcome.Finished? && outcome.dir.streamedChildCount > 0 && Unhalted(attempts[0]) ==>
              && SpecsMatch(q, children, StreamedNames(q.options, attempts[0].entries))
              && (SpecsMatch(q, children, ParentNames(outcome.dir.rows)) <==>
                  attempts[0].failure == None && AlignedListing(q.options, attempts[0].entries))
  {
    var scheduled, tries;
    outcome, scheduled, tries := ReadWithRetries(q, attempts, true, base, parentWeight);
    used := tries;
    children, childCount := scheduled, 0;
    if outcome.Finished? {
      childCount := outcome.dir.streamedChildCount;
      if childCount == 0 {
        children := WeightedChildrenSpecs(q, outcome.dir, base, parentWeight);
        childCount := |children|;
      } else {
        StreamingIsBulk(q.options, attempts[0].entries);
        if attempts[0].failure.Some? {
          ErrorHasNoChildren(attempts[0].failure.value);
        }
      }
    }
  }

  lemma {:induction false} ErrorHasNoChildren(error: IoError)
    ensures ParentNames([NotBuilt(error)]) == []
  {
    var rows := [NotBuilt(error)];
    assert rows[1..] == [] && PARENT_NAME(rows[0]) == [];
    assert ParentNames(rows) == PARENT_NAME(rows[0]) + ParentNames(rows[1..]);
  }
}
