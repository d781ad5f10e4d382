/** The record chain that `NtQueryDirectoryFileEx` leaves in a buffer (src/core/nt_dir_enum.rs). */
module NtEnum {
  import D = Dirents
  import opened Folds

  type Char = c: int | 0 <= c < 0x1_0000

  // A `FILE_ID_BOTH_DIR_INFO`: where its fields are, and its size, which is six bytes more than
  // the last field needs.
  const NEXT_OFFSET: nat := 0
  const NAME_LENGTH_OFFSET: nat := 60
  const NAME_START: nat := 104
  const STRUCT_SIZE: nat := 112

  const FULL_STOP: Char := 46

  /** An entry: the fields of the structure but the offset of the next one, and the name. */
  datatype Info = Info(fields: seq<D.Byte>, name: seq<Char>)

  /** The little-endian number in the bytes from `at` to `end`. */
  function Number(buf: seq<D.Byte>, at: nat, end: nat): nat
    requires at <= end <= |buf|
    decreases end - at
  {
    if at == end then 0
    else
      var low: int := buf[at];
      low + 256 * Number(buf, at + 1, end)
  }

  function U32(buf: seq<D.Byte>, at: nat): nat
    requires at + 4 <= |buf|
  {
    Number(buf, at, at + 4)
  }

  function CharAt(buf: seq<D.Byte>, at: nat): Char
    requires at + 2 <= |buf|
  {
    var low: int, high: int := buf[at], buf[at + 1];
    low + 256 * high
  }

  function Chars(buf: seq<D.Byte>, at: nat, n: nat): (name: seq<Char>)
    requires at + 2 * n <= |buf|
    ensures |name| == n
    decreases n
  {
    if n == 0 then [] else [CharAt(buf, at)] + Chars(buf, at + 2, n - 1)
  }

  function Bytes(buf: seq<D.Byte>, at: nat, end: nat): (bytes: seq<D.Byte>)
    requires at <= end <= |buf|
    decreases end - at
  {
    if at == end then [] else [buf[at]] + Bytes(buf, at + 1, end)
  }

  lemma {:induction false} BytesReadBack(buf: seq<D.Byte>, at: nat, bytes: seq<D.Byte>)
    requires D.HoldsAt(buf, at, bytes)
    ensures Bytes(buf, at, at + |bytes|) == bytes
    decreases |bytes|
  {
    if bytes != [] {
      D.HoldsBoth(buf, at, [bytes[0]], bytes[1..]);
      assert buf[at] == [bytes[0]][0];
      BytesReadBack(buf, at + 1, bytes[1..]);
    }
  }

  predicate IsDot(name: seq<Char>) {
    name == [FULL_STOP] || name == [FULL_STOP, FULL_STOP]
  }

  const IS_LISTED: Info -> bool := (info: Info) => info.name != [46] && info.name != [46, 46]

  function NoDots(infos: seq<Info>): seq<Info> {
    Select(infos, IS_LISTED)
  }

  /** The structure and the whole name are inside the buffer. */
  predicate Whole(buf: seq<D.Byte>, offset: nat) {
    offset + STRUCT_SIZE <= |buf| && offset + NAME_START + U32(buf, offset + NAME_LENGTH_OFFSET) <= |buf|
  }

  function InfoAt(buf: seq<D.Byte>, offset: nat): Info
    requires Whole(buf, offset)
  {
    Info(Bytes(buf, offset + 4, offset + NAME_START),
         Chars(buf, offset + NAME_START, U32(buf, offset + NAME_LENGTH_OFFSET) / 2))
  }

  /** The entries from `offset` on. */
  function Chain(buf: seq<D.Byte>, offset: nat): seq<Info>
    decreases |buf| - offset
  {
    if !Whole(buf, offset) then [] else [InfoAt(buf, offset)] + Rest(buf, offset)
  }

  function Rest(buf: seq<D.Byte>, offset: nat): seq<Info>
    requires Whole(buf, offset)
    decreases |buf| - offset, 0
  {
    var next := U32(buf, offset + NEXT_OFFSET);
    if next == 0 then [] else Chain(buf, offset + next)
  }

  /** The layout, in numbers: the structure has 112 bytes, the next entry's offset is in bytes 0 to 3,
      the name's length in bytes 60 to 63, and the name starts at byte 104. */
  lemma {:induction false} EntryLayout(buf: seq<D.Byte>, o: nat)
    ensures Whole(buf, o) <==> o + 112 <= |buf| && o + 104 + FourBytes(buf, o + 60) <= |buf|
    ensures Whole(buf, o) ==>
              var info, n := InfoAt(buf, o), FourBytes(buf, o + 60) / 2;
              && info.fields == buf[o + 4..o + 104]
              && |info.name| == n
              && (forall i | 0 <= i < n :: info.name[i] == CharAt(buf, o + 104 + 2 * i))
  {
    if o + STRUCT_SIZE <= |buf| {
      NumberOfFour(buf, o + 60);
    }
    if Whole(buf, o) {
      BytesAre(buf, o + 4, o + 104);
      forall i | 0 <= i < FourBytes(buf, o + 60) / 2
        ensures InfoAt(buf, o).name[i] == CharAt(buf, o + 104 + 2 * i)
      {
        CharsAre(buf, o + NAME_START, FourBytes(buf, o + 60) / 2, i);
      }
    }
  }

  lemma {:induction false} NextLayout(buf: seq<D.Byte>, o: nat)
    requires Whole(buf, o)
    ensures Rest(buf, o) == if FourBytes(buf, o) == 0 then [] else Chain(buf, o + FourBytes(buf, o))
  {
    NumberOfFour(buf, o);
  }

  /** Four bytes, the least one first. */
  function FourBytes(buf: seq<D.Byte>, at: nat): nat {
    if at + 4 > |buf| then 0
    else
      var b0: int, b1: int, b2: int, b3: int := buf[at], buf[at + 1], buf[at + 2], buf[at + 3];
      b0 + 0x100 * b1 + 0x1_0000 * b2 + 0x100_0000 * b3
  }

  lemma {:induction false} NumberOfFour(buf: seq<D.Byte>, at: nat)
    requires at + 4 <= |buf|
    ensures U32(buf, at) == FourBytes(buf, at)
  {
    assert Number(buf, at + 4, at + 4) == 0;
    var b3: int := buf[at + 3];
    assert Number(buf, at + 3, at + 4) == b3;
    var b2: int := buf[at + 2];
    assert Number(buf, at + 2, at + 4) == b2 + 256 * b3;
    var b1: int := buf[at + 1];
    assert Number(buf, at + 1, at + 4) == b1 + 256 * (b2 + 256 * b3);
  }

  lemma {:induction false} BytesAre(buf: seq<D.Byte>, at: nat, end: nat)
    requires at <= end <= |buf|
    ensures Bytes(buf, at, end) == buf[at..end]
    decreases end - at
  {
    if at < end {
      BytesAre(buf, at + 1, end);
      assert buf[at..end] == [buf[at]] + buf[at + 1..end];
    }
  }

  lemma {:induction false} CharsAre(buf: seq<D.Byte>, at: nat, n: nat, i: nat)
    requires at + 2 * n <= |buf| && i < n
    ensures Chars(buf, at, n)[i] == CharAt(buf, at + 2 * i)
    decreases n
  {
    if i > 0 {
      CharsAre(buf, at + 2, n - 1, i - 1);
    }
  }

  /** A buffer with one entry: six for the name's length at byte 60, and "abc" at byte 104. */
  predicate HoldsAbc(buf: seq<D.Byte>) {
    && |buf| == 112 && FourBytes(buf, 0) == 0
    && buf[60] == 6 && buf[61] == 0 && buf[62] == 0 && buf[63] == 0
    && CharAt(buf, 104) == 97 && CharAt(buf, 106) == 98 && CharAt(buf, 108) == 99
  }

  lemma {:induction false} AbcIsInfo(buf: seq<D.Byte>)
    requires HoldsAbc(buf)
    ensures Whole(buf, 0) && InfoAt(buf, 0) == Info(buf[4..104], [97, 98, 99]) && U32(buf, 0) == 0
  {
    assert FourBytes(buf, 60) == 6;
    EntryLayout(buf, 0);
    NumberOfFour(buf, 0);
    var name := InfoAt(buf, 0).name;
    assert name[0] == CharAt(buf, 104 + 2 * 0) && name[1] == CharAt(buf, 104 + 2 * 1);
    assert name[2] == CharAt(buf, 104 + 2 * 2);
    assert name == [97, 98, 99];
  }

  lemma {:induction false} AbcIsRead(buf: seq<D.Byte>, copies: Copies)
    requires HoldsAbc(buf)
    ensures Emitted(buf, 0, copies) == [Info(buf[4..104], [97, 98, 99])]
  {
    AbcIsInfo(buf);
    assert |InfoAt(buf, 0).name| == 3;
    assert !LooksLikeDot(buf, 0, copies(0));
    assert EmittedBehind(buf, 0, copies) == [];
  }

  // ---- The parser ----

  /** What the parser finds where the second character of a name is: it looks behind the one
      character that its copy of the structure at an offset has, into the padding. What a copy
      has there is not defined. */
  type Copies = nat -> Char

  function SecondChar(buf: seq<D.Byte>, offset: nat): Char
    requires Whole(buf, offset)
  {
    CharAt(buf, offset + NAME_START + 2)
  }

  /** The test for the two dots, as it is made. */
  predicate LooksLikeDot(buf: seq<D.Byte>, offset: nat, second: Char)
    requires Whole(buf, offset)
  {
    var n, first := U32(buf, offset + NAME_LENGTH_OFFSET) / 2, CharAt(buf, offset + NAME_START);
    || (n == 1 && first == FULL_STOP)
    || (n == 2 && first == FULL_STOP && second == FULL_STOP)
  }

  /** Where it matters, the copy has a dot exactly if the buffer has one. */
  predicate Faithful(buf: seq<D.Byte>, offset: nat, second: Char)
    requires Whole(buf, offset)
  {
    U32(buf, offset + NAME_LENGTH_OFFSET) / 2 == 2 && CharAt(buf, offset + NAME_START) == FULL_STOP ==>
      (second == FULL_STOP <==> SecondChar(buf, offset) == FULL_STOP)
  }

  /** The test finds the two dots if and only if the copy is faithful. */
  lemma {:induction false} DotsAreSpotted(buf: seq<D.Byte>, offset: nat, second: Char)
    requires Whole(buf, offset)
    ensures LooksLikeDot(buf, offset, second) == IsDot(InfoAt(buf, offset).name) <==> Faithful(buf, offset, second)
  {
    var n, at := U32(buf, offset + NAME_LENGTH_OFFSET) / 2, offset + NAME_START;
    var first := CharAt(buf, at);
    if n == 1 {
      assert Chars(buf, at, 1) == [first] + Chars(buf, at + 2, 0) == [first];
      assert [first] == [FULL_STOP] <==> [first][0] == FULL_STOP;
    } else if n == 2 {
      var other := CharAt(buf, at + 2);
      assert Chars(buf, at + 2, 1) == [other] + Chars(buf, at + 4, 0) == [other];
      assert Chars(buf, at, 2) == [first] + Chars(buf, at + 2, 1) == [first, other];
      assert [first, other] == [FULL_STOP, FULL_STOP] <==>
          [first, other][0] == FULL_STOP && [first, other][1] == FULL_STOP;
    }
  }

  /** What the callback is called with from `offset` on. */
  function Emitted(buf: seq<D.Byte>, offset: nat, copies: Copies): seq<Info>
    decreases |buf| - offset
  {
    if !Whole(buf, offset) then []
    else EmittedAt(buf, offset, copies(offset)) + EmittedBehind(buf, offset, copies)
  }

  function EmittedAt(buf: seq<D.Byte>, offset: nat, second: Char): seq<Info>
    requires Whole(buf, offset)
  {
    if LooksLikeDot(buf, offset, second) then [] else [InfoAt(buf, offset)]
  }

  function EmittedBehind(buf: seq<D.Byte>, offset: nat, copies: Copies): seq<Info>
    requires Whole(buf, offset)
    decreases |buf| - offset, 0
  {
    var next := U32(buf, offset + NEXT_OFFSET);
    if next == 0 then [] else Emitted(buf, offset + next, copies)
  }

  predicate FaithfulChain(buf: seq<D.Byte>, offset: nat, copies: Copies)
    decreases |buf| - offset
  {
    Whole(buf, offset) ==> Faithful(buf, offset, copies(offset)) && FaithfulBehind(buf, offset, copies)
  }

  predicate FaithfulBehind(buf: seq<D.Byte>, offset: nat, copies: Copies)
    requires Whole(buf, offset)
    decreases |buf| - offset, 0
  {
    var next := U32(buf, offset + NEXT_OFFSET);
    next == 0 || FaithfulChain(buf, offset + next, copies)
  }

  /** The checks, the test for the two dots, and the call that is made, on the entry at `offset`. */
  method Examine(buf: seq<D.Byte>, offset: nat, second: Char) returns (whole: bool, shown: seq<Info>)
    ensures whole == Whole(buf, offset)
    ensures whole ==> shown == EmittedAt(buf, offset, second)
  {
    if offset + STRUCT_SIZE > |buf| {
      return false, [];
    }
    var nameLen := U32(buf, offset + NAME_LENGTH_OFFSET);
    var nameChars := nameLen / 2;
    if offset + NAME_START + nameLen > |buf| {
      return false, [];
    }
    var firstChar := CharAt(buf, offset + NAME_START);
    var isDot := nameChars == 1 && firstChar == FULL_STOP;
    var isDotDot := nameChars == 2 && firstChar == FULL_STOP && second == FULL_STOP;
    if isDot || isDotDot {
      return true, [];
    }
    return true, [InfoAt(buf, offset)];
  }

  /** What is still to come completes the calls. */
  predicate Following(calls: seq<Info>, rest: seq<Info>, all: seq<Info>) {
    calls + rest == all
  }

  lemma {:induction false} FollowingNext(calls: seq<Info>, first: seq<Info>, rest: seq<Info>, all: seq<Info>)
    requires Following(calls, first + rest, all)
    ensures Following(calls + first, rest, all)
  {
    assert calls + (first + rest) == (calls + first) + rest;
  }

  lemma {:induction false} EmittedNext(buf: seq<D.Byte>, offset: nat, copies: Copies, calls: seq<Info>, all: seq<Info>)
    requires Following(calls, Emitted(buf, offset, copies), all)
    ensures !Whole(buf, offset) ==> Following(calls, [], all)
    ensures Whole(buf, offset) ==>
              Following(calls + EmittedAt(buf, offset, copies(offset)), EmittedBehind(buf, offset, copies), all)
  {
    if Whole(buf, offset) {
      FollowingNext(calls, EmittedAt(buf, offset, copies(offset)), EmittedBehind(buf, offset, copies), all);
    }
  }

  /** One turn of the parser's loop. */
  method ParseEntry(buf: seq<D.Byte>, offset: nat, copies: Copies, calls: seq<Info>, ghost all: seq<Info>)
    returns (more: bool, next: nat, calls': seq<Info>)
    requires Following(calls, Emitted(buf, offset, copies), all)
    ensures Following(calls', if more then Emitted(buf, next, copies) else [], all)
    ensures more ==> offset < next && offset < |buf|
  {
    EmittedNext(buf, offset, copies, calls, all);
    var whole, shown := Examine(buf, offset, copies(offset));
    if !whole {
      return false, 0, calls;
    }
    var nextOffset := U32(buf, offset + NEXT_OFFSET);
    return nextOffset != 0, offset + nextOffset, calls + shown;
  }

  /** `parse_buffer_entries`: the callback's arguments, in the order of its calls. On any bytes at
      all it comes to an end and reads nothing outside the buffer. */
  method ParseBuffer(buf: seq<D.Byte>, copies: Copies) returns (calls: seq<Info>)
    ensures calls == Emitted(buf, 0, copies)
    ensures calls == NoDots(Chain(buf, 0)) <==> FaithfulChain(buf, 0, copies)
  {
    calls := [];
    var offset, more := 0, true;
    ghost var all := Emitted(buf, 0, copies);
    while more
      invariant Following(calls, if more then Emitted(buf, offset, copies) else [], all)
      decreases more, |buf| - offset
    {
      more, offset, calls := ParseEntry(buf, offset, copies, calls, all);
    }
    EmittedExactly(buf, 0, copies);
  }

  // ---- What it emits is the chain without the dots, if the copies are faithful ----

  /** The chain from `offset` on, with its first entry taken out. */
  lemma {:induction false} ChainFrom(buf: seq<D.Byte>, offset: nat)
    requires Whole(buf, offset)
    ensures Chain(buf, offset) == [InfoAt(buf, offset)] + Rest(buf, offset)
  {
  }

  predicate HasDot(infos: seq<Info>) {
    exists i :: 0 <= i < |infos| && IsDot(infos[i].name)
  }

  lemma {:induction false} HasDotBehind(a: seq<Info>, b: seq<Info>)
    requires HasDot(a) || HasDot(b)
    ensures HasDot(a + b)
  {
    if HasDot(a) {
      var i :| 0 <= i < |a| && IsDot(a[i].name);
      assert (a + b)[i] == a[i];
    } else {
      var i :| 0 <= i < |b| && IsDot(b[i].name);
      assert (a + b)[|a| + i] == b[i];
    }
  }

  lemma {:induction false} ListedFrom(buf: seq<D.Byte>, offset: nat)
    requires Whole(buf, offset)
    ensures NoDots(Chain(buf, offset)) ==
            ListedAt(buf, offset) + NoDots(Rest(buf, offset))
  {
    ChainFrom(buf, offset);
    SelectConcat([InfoAt(buf, offset)], Rest(buf, offset), IS_LISTED);
    SelectOne(InfoAt(buf, offset), IS_LISTED);
  }

  lemma {:induction false} FaithfulEmits(buf: seq<D.Byte>, offset: nat, copies: Copies)
    requires FaithfulChain(buf, offset, copies)
    ensures Emitted(buf, offset, copies) == NoDots(Chain(buf, offset))
    decreases |buf| - offset
  {
    if Whole(buf, offset) {
      ChainFrom(buf, offset);
      DotsAreSpotted(buf, offset, copies(offset));
      assert EmittedAt(buf, offset, copies(offset)) == ListedAt(buf, offset);
      ListedFrom(buf, offset);
      FaithfulEmitsBehind(buf, offset, copies);
    }
  }

  lemma {:induction false} FaithfulEmitsBehind(buf: seq<D.Byte>, offset: nat, copies: Copies)
    requires Whole(buf, offset) && FaithfulBehind(buf, offset, copies)
    ensures EmittedBehind(buf, offset, copies) == NoDots(Rest(buf, offset))
    decreases |buf| - offset, 0
  {
    var next := U32(buf, offset + NEXT_OFFSET);
    if next != 0 {
      FaithfulEmits(buf, offset + next, copies);
    }
  }

  /** A dot comes through, or fewer entries than listed, or as many and all copies were faithful. */
  predicate NoMore(emitted: seq<Info>, listed: seq<Info>, faithful: bool) {
    HasDot(emitted) || |emitted| < |listed| || (|emitted| == |listed| && faithful)
  }

  lemma {:induction false} NoMoreBoth(a: seq<Info>, b: seq<Info>, c: seq<Info>, d: seq<Info>, p: bool, q: bool)
    requires NoMore(a, c, p) && NoMore(b, d, q)
    ensures NoMore(a + b, c + d, p && q)
  {
    if HasDot(a) || HasDot(b) {
      HasDotBehind(a, b);
    }
  }

  /** What should come of the entry at `offset`. */
  function ListedAt(buf: seq<D.Byte>, offset: nat): seq<Info>
    requires Whole(buf, offset)
  {
    if IsDot(InfoAt(buf, offset).name) then [] else [InfoAt(buf, offset)]
  }

  lemma {:induction false} FirstNoMore(buf: seq<D.Byte>, offset: nat, second: Char)
    requires Whole(buf, offset)
    ensures NoMore(EmittedAt(buf, offset, second), ListedAt(buf, offset), Faithful(buf, offset, second))
  {
    DotsAreSpotted(buf, offset, second);
    if IsDot(InfoAt(buf, offset).name) && !LooksLikeDot(buf, offset, second) {
      assert IsDot(EmittedAt(buf, offset, second)[0].name);
    }
  }

  /** An unfaithful copy lets a dot through or drops an entry. */
  lemma {:induction false} EmitsNoMore(buf: seq<D.Byte>, offset: nat, copies: Copies)
    ensures NoMore(Emitted(buf, offset, copies), NoDots(Chain(buf, offset)), FaithfulChain(buf, offset, copies))
    decreases |buf| - offset
  {
    if Whole(buf, offset) {
      ChainFrom(buf, offset);
      BehindNoMore(buf, offset, copies);
      FirstNoMore(buf, offset, copies(offset));
      ListedFrom(buf, offset);
      NoMoreBoth(EmittedAt(buf, offset, copies(offset)), EmittedBehind(buf, offset, copies),
                 ListedAt(buf, offset), NoDots(Rest(buf, offset)),
                 Faithful(buf, offset, copies(offset)), FaithfulBehind(buf, offset, copies));
    }
  }

  lemma {:induction false} BehindNoMore(buf: seq<D.Byte>, offset: nat, copies: Copies)
    requires Whole(buf, offset)
    ensures NoMore(EmittedBehind(buf, offset, copies), NoDots(Rest(buf, offset)), FaithfulBehind(buf, offset, copies))
    decreases |buf| - offset, 0
  {
    var next := U32(buf, offset + NEXT_OFFSET);
    if next != 0 {
      EmitsNoMore(buf, offset + next, copies);
    }
  }

  /** On arbitrary bytes the callback sees the entries of the chain without the two dots if and
      only if the copies are faithful. */
  lemma {:induction false} EmittedExactly(buf: seq<D.Byte>, offset: nat, copies: Copies)
    ensures Emitted(buf, offset, copies) == NoDots(Chain(buf, offset)) <==> FaithfulChain(buf, offset, copies)
  {
    if FaithfulChain(buf, offset, copies) {
      FaithfulEmits(buf, offset, copies);
    }
    EmitsNoMore(buf, offset, copies);
    SelectWithin(Chain(buf, offset), IS_LISTED);
    var listed := NoDots(Chain(buf, offset));
    assert forall i | 0 <= i < |listed| :: listed[i] in listed;
  }

  /** The copies keep the padding. */
  ghost predicate PlainCopies(buf: seq<D.Byte>, copies: Copies) {
    forall o: nat | Whole(buf, o) :: copies(o) == SecondChar(buf, o)
  }

  lemma {:induction false} PlainCopiesAreFaithful(buf: seq<D.Byte>, offset: nat, copies: Copies)
    requires PlainCopies(buf, copies)
    ensures FaithfulChain(buf, offset, copies)
    decreases |buf| - offset
  {
    if Whole(buf, offset) {
      var next := U32(buf, offset + NEXT_OFFSET);
      if next != 0 {
        PlainCopiesAreFaithful(buf, offset + next, copies);
      }
    }
  }

  lemma {:induction false} PlainCopiesEmit(buf: seq<D.Byte>, copies: Copies)
    requires PlainCopies(buf, copies)
    ensures Emitted(buf, 0, copies) == NoDots(Chain(buf, 0))
  {
    PlainCopiesAreFaithful(buf, 0, copies);
    EmittedExactly(buf, 0, copies);
  }

  // ---- Chains, and back ----

  const BEFORE_SIZE: nat := 56

  type Before = s: seq<D.Byte> | |s| == BEFORE_SIZE witness seq(BEFORE_SIZE, _ => 0)
  const AFTER_SIZE: nat := 40

  type After = s: seq<D.Byte> | |s| == AFTER_SIZE witness seq(AFTER_SIZE, _ => 0)

  /** An entry and the bytes behind its name: padding up to the next entry or, for the last
      entry, the rest of the buffer. */
  datatype Record = Record(before: Before, after: After, name: seq<Char>, pad: seq<D.Byte>)

  function Size(r: Record): nat {
    104 + 2 * |r.name| + |r.pad|
  }

  predicate Fits(r: Record) {
    Size(r) < 0x1_0000_0000
  }

  function NumberBytes(v: nat, n: nat): (bytes: seq<D.Byte>)
    ensures |bytes| == n
  {
    if n == 0 then [] else [v % 256] + NumberBytes(v / 256, n - 1)
  }

  function Power256(n: nat): nat {
    if n == 0 then 1 else 256 * Power256(n - 1)
  }

  lemma {:induction false} NumberReadsBack(buf: seq<D.Byte>, at: nat, v: nat, n: nat)
    requires v < Power256(n) && D.HoldsAt(buf, at, NumberBytes(v, n))
    ensures Number(buf, at, at + n) == v
    decreases n
  {
    if n > 0 {
      D.HoldsBoth(buf, at, [v % 256], NumberBytes(v / 256, n - 1));
      assert buf[at] == [v % 256][0];
      NumberReadsBack(buf, at + 1, v / 256, n - 1);
    }
  }

  function U32Bytes(v: nat): (bytes: seq<D.Byte>)
    requires v < 0x1_0000_0000
    ensures |bytes| == 4
  {
    NumberBytes(v, 4)
  }

  lemma {:induction false} U32ReadsBack(buf: seq<D.Byte>, at: nat, v: nat)
    requires v < 0x1_0000_0000 && D.HoldsAt(buf, at, U32Bytes(v))
    ensures U32(buf, at) == v
  {
    assert Power256(1) == 256 && Power256(2) == 0x1_0000 && Power256(3) == 0x100_0000 && Power256(4) == 0x1_0000_0000;
    NumberReadsBack(buf, at, v, 4);
  }

  function NameBytes(name: seq<Char>): (bytes: seq<D.Byte>)
    ensures |bytes| == 2 * |name|
  {
    if name == [] then [] else [name[0] % 256, name[0] / 256] + NameBytes(name[1..])
  }

  function Fields(r: Record): (bytes: seq<D.Byte>)
    requires Fits(r)
    ensures |bytes| == NAME_START - 4
  {
    r.before + (U32Bytes(2 * |r.name|) + r.after)
  }

  function Encode(r: Record, last: bool): (bytes: seq<D.Byte>)
    requires Fits(r)
    ensures |bytes| == Size(r)
  {
    U32Bytes(if last then 0 else Size(r)) + (Fields(r) + (NameBytes(r.name) + r.pad))
  }

  predicate AllFit(rs: seq<Record>) {
    forall i | 0 <= i < |rs| :: Fits(rs[i])
  }

  function EncodeChain(rs: seq<Record>): (bytes: seq<D.Byte>)
    requires AllFit(rs)
    ensures rs != [] ==> |bytes| >= NAME_START
  {
    if rs == [] then [] else Encode(rs[0], |rs| == 1) + EncodeChain(rs[1..])
  }

  function InfoOf(r: Record): Info
    requires Fits(r)
  {
    Info(Fields(r), r.name)
  }

  function Infos(rs: seq<Record>): seq<Info>
    requires AllFit(rs)
  {
    if rs == [] then [] else [InfoOf(rs[0])] + Infos(rs[1..])
  }

  lemma {:induction false} NameReadsBack(buf: seq<D.Byte>, at: nat, name: seq<Char>)
    requires D.HoldsAt(buf, at, NameBytes(name))
    ensures Chars(buf, at, |name|) == name
    decreases |name|
  {
    if name != [] {
      var c: int := name[0];
      D.HoldsBoth(buf, at, [c % 256, c / 256], NameBytes(name[1..]));
      var pair := [c % 256, c / 256];
      assert buf[at] == pair[0] && buf[at + 1] == pair[1];
      NameReadsBack(buf, at + 2, name[1..]);
    }
  }

  /** What the parser finds of a record. */
  predicate RecordAt(buf: seq<D.Byte>, offset: nat, r: Record, last: bool)
    requires Fits(r)
  {
    && offset + Size(r) <= |buf|
    && U32(buf, offset + NEXT_OFFSET) == (if last then 0 else Size(r))
    && (Whole(buf, offset) <==> offset + STRUCT_SIZE <= |buf|)
    && (Whole(buf, offset) ==> InfoAt(buf, offset) == InfoOf(r))
  }

  lemma {:induction false} RecordParts(buf: seq<D.Byte>, offset: nat, r: Record, last: bool)
    requires Fits(r) && D.HoldsAt(buf, offset, Encode(r, last))
    ensures D.HoldsAt(buf, offset, U32Bytes(if last then 0 else Size(r)))
    ensures D.HoldsAt(buf, offset + 4, Fields(r))
    ensures D.HoldsAt(buf, offset + NAME_START, NameBytes(r.name))
  {
    var name := NameBytes(r.name);
    D.HoldsBoth(buf, offset, U32Bytes(if last then 0 else Size(r)), Fields(r) + (name + r.pad));
    D.HoldsBoth(buf, offset + 4, Fields(r), name + r.pad);
    D.HoldsBoth(buf, offset + NAME_START, name, r.pad);
  }

  lemma {:induction false} NameLengthReadsBack(buf: seq<D.Byte>, offset: nat, r: Record)
    requires Fits(r) && D.HoldsAt(buf, offset + 4, Fields(r))
    ensures U32(buf, offset + NAME_LENGTH_OFFSET) == 2 * |r.name|
  {
    var length := U32Bytes(2 * |r.name|);
    D.HoldsBoth(buf, offset + 4, r.before, length + r.after);
    D.HoldsBoth(buf, offset + NAME_LENGTH_OFFSET, length, r.after);
    U32ReadsBack(buf, offset + NAME_LENGTH_OFFSET, 2 * |r.name|);
  }

  lemma {:induction false} RecordReadsBack(buf: seq<D.Byte>, offset: nat, r: Record, last: bool)
    requires Fits(r) && D.HoldsAt(buf, offset, Encode(r, last))
    ensures RecordAt(buf, offset, r, last)
  {
    RecordParts(buf, offset, r, last);
    U32ReadsBack(buf, offset, if last then 0 else Size(r));
    NameLengthReadsBack(buf, offset, r);
    BytesReadBack(buf, offset + 4, Fields(r));
    NameReadsBack(buf, offset + NAME_START, r.name);
  }

  predicate ChainAt(buf: seq<D.Byte>, offset: nat, rs: seq<Record>)
    requires AllFit(rs)
    decreases |rs|
  {
    && rs != [] && RecordAt(buf, offset, rs[0], |rs| == 1)
    && if |rs| == 1 then offset + Size(rs[0]) == |buf| else ChainAt(buf, offset + Size(rs[0]), rs[1..])
  }

  lemma {:induction false} FirstOfChain(buf: seq<D.Byte>, offset: nat, rs: seq<Record>)
    requires rs != [] && AllFit(rs) && D.HoldsAt(buf, offset, EncodeChain(rs))
    ensures RecordAt(buf, offset, rs[0], |rs| == 1)
    ensures D.HoldsAt(buf, offset + Size(rs[0]), EncodeChain(rs[1..]))
    ensures |EncodeChain(rs)| == Size(rs[0]) + |EncodeChain(rs[1..])|
  {
    D.HoldsBoth(buf, offset, Encode(rs[0], |rs| == 1), EncodeChain(rs[1..]));
    RecordReadsBack(buf, offset, rs[0], |rs| == 1);
  }

  lemma {:induction false} EncodedChain(buf: seq<D.Byte>, offset: nat, rs: seq<Record>)
    requires rs != [] && AllFit(rs) && D.HoldsAt(buf, offset, EncodeChain(rs)) && offset + |EncodeChain(rs)| == |buf|
    ensures ChainAt(buf, offset, rs)
    decreases |rs|
  {
    FirstOfChain(buf, offset, rs);
    if |rs| == 1 {
      assert EncodeChain(rs[1..]) == [];
    } else {
      EncodedChain(buf, offset + Size(rs[0]), rs[1..]);
    }
  }

  /** The last structure, padding included, is inside the buffer. */
  predicate LastFits(rs: seq<Record>)
    requires rs != []
  {
    Size(rs[|rs| - 1]) >= 112
  }

  function Seen(rs: seq<Record>): seq<Record>
    requires rs != []
  {
    if LastFits(rs) then rs else rs[..|rs| - 1]
  }

  lemma {:induction false} OneInfo(r: Record)
    requires Fits(r)
    ensures Infos([r]) == [InfoOf(r)]
    ensures NoDots([InfoOf(r)]) == if IsDot(r.name) then [] else [InfoOf(r)]
  {
    assert [r][1..] == [];
    SelectOne(InfoOf(r), IS_LISTED);
  }

  lemma {:induction false} SeenFirst(rs: seq<Record>)
    requires |rs| > 1 && AllFit(rs)
    ensures Infos(Seen(rs)) == [InfoOf(rs[0])] + Infos(Seen(rs[1..]))
  {
    assert Seen(rs)[0] == rs[0] && Seen(rs)[1..] == Seen(rs[1..]);
  }

  lemma {:induction false} LastOfChain(buf: seq<D.Byte>, offset: nat, r: Record)
    requires Fits(r) && RecordAt(buf, offset, r, true) && offset + Size(r) == |buf|
    ensures Chain(buf, offset) == if Size(r) >= STRUCT_SIZE then [InfoOf(r)] else []
  {
    if Whole(buf, offset) {
      ChainFrom(buf, offset);
    }
  }

  lemma {:induction false} RestIs(buf: seq<D.Byte>, offset: nat, next: nat)
    requires Whole(buf, offset) && U32(buf, offset + NEXT_OFFSET) == next != 0
    ensures Rest(buf, offset) == Chain(buf, offset + next)
  {
  }

  lemma {:induction false} NextOfChain(buf: seq<D.Byte>, offset: nat, r: Record)
    requires Fits(r) && RecordAt(buf, offset, r, false) && offset + Size(r) + NAME_START <= |buf|
    ensures Chain(buf, offset) == [InfoOf(r)] + Chain(buf, offset + Size(r))
  {
    RestIs(buf, offset, Size(r));
    FirstIs(buf, offset, InfoOf(r), Chain(buf, offset + Size(r)));
  }

  lemma {:induction false} FirstIs(buf: seq<D.Byte>, offset: nat, info: Info, rest: seq<Info>)
    requires Whole(buf, offset) && InfoAt(buf, offset) == info && Rest(buf, offset) == rest
    ensures Chain(buf, offset) == [info] + rest
  {
  }

  lemma {:induction false} SeenLast(r: Record)
    requires Fits(r)
    ensures Infos(Seen([r])) == if Size(r) >= STRUCT_SIZE then [InfoOf(r)] else []
  {
    assert [r][..0] == [];
    OneInfo(r);
  }

  /** The entries that are seen, taken from the front. */
  function SeenInfos(rs: seq<Record>): seq<Info>
    requires rs != [] && AllFit(rs)
  {
    if |rs| > 1 then [InfoOf(rs[0])] + SeenInfos(rs[1..])
    else if Size(rs[0]) >= 112 then [InfoOf(rs[0])] else []
  }

  lemma {:induction false} SeenInfosAre(rs: seq<Record>)
    requires rs != [] && AllFit(rs)
    ensures SeenInfos(rs) == Infos(Seen(rs))
  {
    if |rs| > 1 {
      SeenInfosAre(rs[1..]);
      SeenFirst(rs);
    } else {
      assert rs == [rs[0]];
      SeenLast(rs[0]);
    }
  }

  lemma {:induction false} ChainIsSeen(buf: seq<D.Byte>, offset: nat, rs: seq<Record>)
    requires AllFit(rs) && ChainAt(buf, offset, rs)
    ensures Chain(buf, offset) == SeenInfos(rs)
    decreases |rs|
  {
    if |rs| > 1 {
      ChainIsSeen(buf, offset + Size(rs[0]), rs[1..]);
      NextOfChain(buf, offset, rs[0]);
    } else {
      LastOfChain(buf, offset, rs[0]);
    }
  }

  /** A chain parses into its entries, in order, but for the last one when the buffer ends less
      than a whole structure after the start of it. */
  lemma {:induction false} ChainReadsBack(buf: seq<D.Byte>, offset: nat, rs: seq<Record>)
    requires AllFit(rs) && ChainAt(buf, offset, rs)
    ensures Chain(buf, offset) == Infos(Seen(rs))
  {
    ChainIsSeen(buf, offset, rs);
    SeenInfosAre(rs);
  }

  lemma {:induction false} InfosConcat(a: seq<Record>, b: seq<Record>)
    requires AllFit(a) && AllFit(b)
    ensures Infos(a + b) == Infos(a) + Infos(b)
  {
    if a == [] {
      assert a + b == b;
    } else {
      assert (a + b)[0] == a[0] && (a + b)[1..] == a[1..] + b;
      InfosConcat(a[1..], b);
    }
  }

  lemma {:induction false} LastShows(init: seq<Record>, last: Record)
    requires AllFit(init) && Fits(last)
    ensures NoDots(Infos(init + [last])) == NoDots(Infos(init)) <==> IsDot(last.name)
  {
    InfosConcat(init, [last]);
    SelectConcat(Infos(init), [InfoOf(last)], IS_LISTED);
    OneInfo(last);
  }

  lemma {:induction false} SeenShows(rs: seq<Record>)
    requires rs != [] && AllFit(rs)
    ensures NoDots(Infos(Seen(rs))) == NoDots(Infos(rs)) <==> LastFits(rs) || IsDot(rs[|rs| - 1].name)
  {
    var init, last := rs[..|rs| - 1], rs[|rs| - 1];
    assert rs == init + [last];
    LastShows(init, last);
  }

  lemma {:induction false} WholeChain(rs: seq<Record>)
    requires rs != [] && AllFit(rs)
    ensures Chain(EncodeChain(rs), 0) == Infos(Seen(rs))
  {
    var buf := EncodeChain(rs);
    EncodedChain(buf, 0, rs);
    ChainReadsBack(buf, 0, rs);
  }

  /** Every name but the two dots comes out once, in order, if and only if the last entry is one
      of the dots or is followed by enough bytes to make up the structure. A name of four
      characters or more always is. */
  lemma {:induction false} RoundTrip(rs: seq<Record>)
    requires rs != [] && AllFit(rs)
    ensures NoDots(Chain(EncodeChain(rs), 0)) == NoDots(Infos(rs)) <==> LastFits(rs) || IsDot(rs[|rs| - 1].name)
    ensures |rs[|rs| - 1].name| >= 4 ==> LastFits(rs)
  {
    WholeChain(rs);
    SeenShows(rs);
  }

  // ---- Chains as the system makes them ----

  /** Every entry starts at a multiple of eight, and so does the end of the buffer; no name is empty. */
  predicate WellFormed(rs: seq<Record>) {
    rs != [] && AllFit(rs) && forall i | 0 <= i < |rs| :: Size(rs[i]) % 8 == 0 && rs[i].name != []
  }

  lemma {:induction false} WellFormedFits(rs: seq<Record>)
    requires WellFormed(rs)
    ensures LastFits(rs)
  {
    assert Size(rs[|rs| - 1]) % 8 == 0;
  }

  /** On any such chain, with plain copies, the parser gives every name but the two dots once, in
      order. */
  lemma {:induction false} AlignedRoundTrip(rs: seq<Record>, copies: Copies)
    requires WellFormed(rs) && PlainCopies(EncodeChain(rs), copies)
    ensures Emitted(EncodeChain(rs), 0, copies) == NoDots(Infos(rs))
  {
    WellFormedFits(rs);
    RoundTrip(rs);
    PlainCopiesEmit(EncodeChain(rs), copies);
  }

  /** A name of two characters, 108 bytes before the end of the buffer. */
  const LOSER := Record(seq(BEFORE_SIZE, _ => 0), seq(AFTER_SIZE, _ => 0), [97, 98], [])

  /** Entries that start at multiples of four only can be lost. */
  lemma {:induction false} UnalignedCanLose(copies: Copies)
    ensures Size(LOSER) == 108 && AllFit([LOSER])
    ensures Infos([LOSER]) == [InfoOf(LOSER)] && !IsDot(LOSER.name)
    ensures Emitted(EncodeChain([LOSER]), 0, copies) == []
  {
    OneInfo(LOSER);
    assert EncodeChain([LOSER][1..]) == [];
    assert |EncodeChain([LOSER])| == 108;
  }
}
