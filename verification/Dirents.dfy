/** Linux directory records, byte by byte, and the two enumerators built on them
    (src/core/unix_dir_enum.rs). */
module Dirents {
  import opened Folds

  type Byte = b: int | 0 <= b < 256

  // Where the fields of a `linux_dirent64` are. The header is five bytes longer than the fields
  // before the name: the size of the structure includes its padding.
  const RECLEN_OFFSET: nat := 16
  const TYPE_OFFSET: nat := 18
  const NAME_OFFSET: nat := 19
  const HEADER_SIZE: nat := 24

  const DT_DIR: Byte := 4
  const DOT: Byte := 46

  datatype Dirent = Dirent(dType: Byte, name: seq<Byte>)

  function RecLen(buf: seq<Byte>, offset: nat): nat
    requires offset + HEADER_SIZE <= |buf|
  {
    var low: int, high: int := buf[offset + RECLEN_OFFSET], buf[offset + RECLEN_OFFSET + 1];
    low + 256 * high
  }

  /** Some byte from `at` on is NUL, so that a C string starts there. */
  predicate Terminated(buf: seq<Byte>, at: nat) {
    exists k :: at <= k < |buf| && buf[k] == 0
  }

  function StringAt(buf: seq<Byte>, at: nat): seq<Byte>
    requires Terminated(buf, at)
    decreases |buf| - at
  {
    if buf[at] == 0 then [] else [buf[at]] + StringAt(buf, at + 1)
  }

  /** A whole record starts at `offset`. */
  predicate Whole(buf: seq<Byte>, len: nat, offset: nat)
    requires len <= |buf|
  {
    offset + HEADER_SIZE <= len && RecLen(buf, offset) != 0 && offset + RecLen(buf, offset) <= len
  }

  /** What the parser relies on: the name of every record it reaches ends inside the buffer. */
  predicate Readable(buf: seq<Byte>, len: nat, offset: nat)
    requires len <= |buf|
    decreases len - offset
  {
    Whole(buf, len, offset) ==>
      Terminated(buf, offset + NAME_OFFSET) && Readable(buf, len, offset + RecLen(buf, offset))
  }

  function Records(buf: seq<Byte>, len: nat, offset: nat): seq<Dirent>
    requires len <= |buf| && Readable(buf, len, offset)
    decreases len - offset
  {
    if !Whole(buf, len, offset) then []
    else [Dirent(buf[offset + TYPE_OFFSET], StringAt(buf, offset + NAME_OFFSET))]
         + Records(buf, len, offset + RecLen(buf, offset))
  }

  /** The layout, in numbers: a record has 24 bytes at least, and its length in bytes 16 and 17. */
  lemma {:induction false} RecordLayout(buf: seq<Byte>, len: nat, offset: nat)
    requires len <= |buf|
    ensures offset + 24 > len ==> !Whole(buf, len, offset)
    ensures offset + 24 <= len ==>
              var low: int, high: int := buf[offset + 16], buf[offset + 17];
              Whole(buf, len, offset) <==> low + 256 * high != 0 && offset + (low + 256 * high) <= len
  {
  }

  /** Its type is in byte 18, its name goes from byte 19 to the first NUL, and the next record starts
      so many bytes further. */
  lemma {:induction false} FirstRecordLayout(buf: seq<Byte>, len: nat, offset: nat)
    requires len <= |buf| && Readable(buf, len, offset) && Whole(buf, len, offset)
    ensures var d, end := Records(buf, len, offset)[0], offset + 19 + |Records(buf, len, offset)[0].name|;
            && d.dType == buf[offset + 18]
            && end < |buf| && buf[end] == 0 && d.name == buf[offset + 19..end] && 0 !in d.name
    ensures var low: int, high: int := buf[offset + 16], buf[offset + 17];
            Records(buf, len, offset)[1..] == Records(buf, len, offset + (low + 256 * high))
  {
    StringEnds(buf, offset + NAME_OFFSET);
  }

  lemma {:induction false} StringEnds(buf: seq<Byte>, at: nat)
    requires Terminated(buf, at)
    ensures var s := StringAt(buf, at);
            at + |s| < |buf| && buf[at + |s|] == 0 && s == buf[at..at + |s|] && 0 !in s
    decreases |buf| - at
  {
    if buf[at] != 0 {
      StringEnds(buf, at + 1);
    }
  }

  // ---- The parser ----

  lemma {:induction false} StringUpTo(buf: seq<Byte>, at: nat, n: nat)
    requires at + n < |buf| && buf[at + n] == 0 && forall k | at <= k < at + n :: buf[k] != 0
    ensures Terminated(buf, at) && StringAt(buf, at) == buf[at..at + n]
    decreases n
  {
    if n > 0 {
      StringUpTo(buf, at + 1, n - 1);
    }
  }

  method StrLen(buf: seq<Byte>, at: nat) returns (n: nat)
    requires Terminated(buf, at)
    ensures at + n < |buf| && StringAt(buf, at) == buf[at..at + n]
  {
    n := 0;
    while buf[at + n] != 0
      invariant exists k :: at + n <= k < |buf| && buf[k] == 0
      invariant forall k | at <= k < at + n :: buf[k] != 0
      decreases |buf| - n
    {
      n := n + 1;
    }
    StringUpTo(buf, at, n);
  }

  /** The records from `offset` on complete the calls. */
  predicate Following(buf: seq<Byte>, len: nat, offset: nat, calls: seq<Dirent>)
    requires len <= |buf| && Readable(buf, len, 0)
  {
    Readable(buf, len, offset) && calls + Records(buf, len, offset) == Records(buf, len, 0)
  }

  lemma {:induction false} FollowingNext(buf: seq<Byte>, len: nat, offset: nat, calls: seq<Dirent>)
    requires len <= |buf| && Readable(buf, len, 0) && Following(buf, len, offset, calls) && Whole(buf, len, offset)
    ensures Terminated(buf, offset + NAME_OFFSET)
    ensures var d := Dirent(buf[offset + TYPE_OFFSET], StringAt(buf, offset + NAME_OFFSET));
            Following(buf, len, offset + RecLen(buf, offset), calls + [d])
  {
    var d := Dirent(buf[offset + TYPE_OFFSET], StringAt(buf, offset + NAME_OFFSET));
    var rest := Records(buf, len, offset + RecLen(buf, offset));
    assert calls + ([d] + rest) == (calls + [d]) + rest;
  }

  lemma {:induction false} FollowingLast(buf: seq<Byte>, len: nat, offset: nat, calls: seq<Dirent>)
    requires len <= |buf| && Readable(buf, len, 0) && Following(buf, len, offset, calls) && !Whole(buf, len, offset)
    ensures calls == Records(buf, len, 0)
  {
  }

  /** `parse_dirents`: the callback's arguments, in the order of its calls. */
  method ParseDirents(buf: seq<Byte>, len: nat) returns (calls: seq<Dirent>)
    requires len <= |buf| && Readable(buf, len, 0)
    ensures calls == Records(buf, len, 0)
  {
    calls := [];
    var offset := 0;
    while offset + HEADER_SIZE <= len
      invariant Following(buf, len, offset, calls)
      decreases len - offset
    {
      var recLen := RecLen(buf, offset);
      if recLen == 0 || offset + recLen > len {
        break;
      }
      FollowingNext(buf, len, offset, calls);
      var nameLen := StrLen(buf, offset + NAME_OFFSET);
      var name := buf[offset + NAME_OFFSET..offset + NAME_OFFSET + nameLen];
      calls := calls + [Dirent(buf[offset + TYPE_OFFSET], name)];
      offset := offset + recLen;
    }
    FollowingLast(buf, len, offset, calls);
  }

  // ---- The encoder, and back ----

  /** The inode number and the offset, which the parser ignores. */
  type Head = h: seq<Byte> | |h| == 16 witness seq(16, _ => 0)

  datatype Record = Record(head: Head, dirent: Dirent)

  function PaddedLen(d: Dirent): nat {
    (19 + |d.name| + 1 + 7) / 8 * 8
  }

  function LengthAndType(d: Dirent): seq<Byte> {
    [PaddedLen(d) % 256, PaddedLen(d) / 256 % 256, d.dType]
  }

  function Padding(d: Dirent): (bytes: seq<Byte>)
    ensures |bytes| == PaddedLen(d) - NAME_OFFSET - |d.name| > 0 && bytes[0] == bytes[|bytes| - 1] == 0
  {
    seq(PaddedLen(d) - NAME_OFFSET - |d.name|, _ => 0)
  }

  /** The test encoder: the length is cut to 16 bits, the name padded with NULs. */
  function Encode(r: Record): (bytes: seq<Byte>)
    ensures |bytes| == PaddedLen(r.dirent)
  {
    r.head + (LengthAndType(r.dirent) + (r.dirent.name + Padding(r.dirent)))
  }

  function EncodeAll(rs: seq<Record>): seq<Byte> {
    if rs == [] then [] else Encode(rs[0]) + EncodeAll(rs[1..])
  }

  /** The format can express the record's length. */
  predicate Fits(r: Record) {
    PaddedLen(r.dirent) < 0x1_0000
  }

  predicate AllFit(rs: seq<Record>) {
    forall i | 0 <= i < |rs| :: Fits(rs[i])
  }

  predicate NulFree(name: seq<Byte>) {
    forall i | 0 <= i < |name| :: name[i] != 0
  }

  predicate AllNulFree(rs: seq<Record>) {
    forall i | 0 <= i < |rs| :: NulFree(rs[i].dirent.name)
  }

  function UpToNul(name: seq<Byte>): (s: seq<Byte>)
    ensures s <= name
    ensures s == name <==> NulFree(name)
  {
    if name == [] || name[0] == 0 then [] else [name[0]] + UpToNul(name[1..])
  }

  /** What can come back of a list of records: names are C strings. */
  function Truncated(rs: seq<Record>): (ds: seq<Dirent>)
    ensures |ds| == |rs|
    ensures forall i | 0 <= i < |rs| :: ds[i] == Dirent(rs[i].dirent.dType, UpToNul(rs[i].dirent.name))
  {
    seq(|rs|, i requires 0 <= i < |rs| => Dirent(rs[i].dirent.dType, UpToNul(rs[i].dirent.name)))
  }

  /** How many of the first records lie wholly inside `room` bytes. */
  function Inside(rs: seq<Record>, room: nat): (n: nat)
    ensures n <= |rs|
  {
    if rs == [] || PaddedLen(rs[0].dirent) > room then 0
    else 1 + Inside(rs[1..], room - PaddedLen(rs[0].dirent))
  }

  lemma {:induction false} InsideExactly(rs: seq<Record>, room: nat, k: nat)
    requires k <= |rs|
    ensures |EncodeAll(rs[..k])| <= room <==> k <= Inside(rs, room)
  {
    if k > 0 {
      assert rs[..k][0] == rs[0] && rs[..k][1..] == rs[1..][..k - 1];
      if PaddedLen(rs[0].dirent) <= room {
        InsideExactly(rs[1..], room - PaddedLen(rs[0].dirent), k - 1);
      }
    }
  }

  predicate HoldsAt(buf: seq<Byte>, offset: nat, bytes: seq<Byte>) {
    offset + |bytes| <= |buf| && forall i | 0 <= i < |bytes| :: buf[offset + i] == bytes[i]
  }

  lemma {:induction false} HoldsBoth(buf: seq<Byte>, offset: nat, a: seq<Byte>, b: seq<Byte>)
    requires HoldsAt(buf, offset, a + b)
    ensures HoldsAt(buf, offset, a) && HoldsAt(buf, offset + |a|, b)
  {
    assert forall i | 0 <= i < |a| :: (a + b)[i] == a[i];
    forall i | 0 <= i < |b| ensures buf[offset + |a| + i] == b[i] {
      assert (a + b)[|a| + i] == b[i];
    }
  }

  lemma {:induction false} NameReadsBack(buf: seq<Byte>, at: nat, name: seq<Byte>)
    requires HoldsAt(buf, at, name) && at + |name| < |buf| && buf[at + |name|] == 0
    ensures Terminated(buf, at) && StringAt(buf, at) == UpToNul(name)
    decreases |name|
  {
    if name != [] {
      HoldsBoth(buf, at, [name[0]], name[1..]);
      assert buf[at] == [name[0]][0];
      if name[0] != 0 {
        NameReadsBack(buf, at + 1, name[1..]);
      }
    }
  }

  lemma {:induction false} CutTo16Bits(v: nat)
    ensures v % 256 + 256 * (v / 256 % 256) == v % 0x1_0000
  {
    var low := v % 256 + 256 * (v / 256 % 256);
    assert v == 0x1_0000 * (v / 256 / 256) + low && 0 <= low < 0x1_0000;
  }

  lemma {:induction false} RecordParts(buf: seq<Byte>, offset: nat, r: Record)
    requires HoldsAt(buf, offset, Encode(r))
    ensures HoldsAt(buf, offset + RECLEN_OFFSET, LengthAndType(r.dirent))
    ensures HoldsAt(buf, offset + NAME_OFFSET, r.dirent.name)
    ensures HoldsAt(buf, offset + NAME_OFFSET + |r.dirent.name|, Padding(r.dirent))
  {
    var d := r.dirent;
    HoldsBoth(buf, offset, r.head, LengthAndType(d) + (d.name + Padding(d)));
    HoldsBoth(buf, offset + RECLEN_OFFSET, LengthAndType(d), d.name + Padding(d));
    HoldsBoth(buf, offset + NAME_OFFSET, d.name, Padding(d));
  }

  lemma {:induction false} RecordReadsBack(buf: seq<Byte>, offset: nat, r: Record)
    requires HoldsAt(buf, offset, Encode(r))
    ensures offset + HEADER_SIZE <= |buf| && RecLen(buf, offset) == PaddedLen(r.dirent) % 0x1_0000
    ensures buf[offset + TYPE_OFFSET] == r.dirent.dType
    ensures Terminated(buf, offset + NAME_OFFSET)
    ensures StringAt(buf, offset + NAME_OFFSET) == UpToNul(r.dirent.name)
  {
    var d := r.dirent;
    RecordParts(buf, offset, r);
    assert buf[offset + NAME_OFFSET + |d.name|] == Padding(d)[0];
    NameReadsBack(buf, offset + NAME_OFFSET, d.name);
    CutTo16Bits(PaddedLen(d));
    assert buf[offset + RECLEN_OFFSET] == LengthAndType(d)[0];
    assert buf[offset + RECLEN_OFFSET + 1] == LengthAndType(d)[1];
    assert buf[offset + TYPE_OFFSET] == LengthAndType(d)[2];
  }

  lemma {:induction false} FittingLength(buf: seq<Byte>, offset: nat, r: Record)
    requires Fits(r) && HoldsAt(buf, offset, Encode(r))
    ensures offset + HEADER_SIZE <= |buf| && RecLen(buf, offset) == PaddedLen(r.dirent)
  {
    RecordReadsBack(buf, offset, r);
  }

  /** The encoder's layout, in numbers. */
  lemma {:induction false} EncodedLayout(r: Record)
    ensures var bytes, d := Encode(r), r.dirent;
            && |bytes| % 8 == 0 && 20 + |d.name| <= |bytes| < 28 + |d.name|
            && bytes[16] == |bytes| % 256 && bytes[17] == |bytes| / 256 % 256 && bytes[18] == d.dType
            && bytes[19..19 + |d.name|] == d.name && bytes[19 + |d.name|] == 0
  {
    RecordParts(Encode(r), 0, r);
    var bytes, d := Encode(r), r.dirent;
    assert bytes[16] == LengthAndType(d)[0] && bytes[17] == LengthAndType(d)[1] && bytes[18] == LengthAndType(d)[2];
    assert bytes[19 + |d.name|] == Padding(d)[0];
  }

  predicate ParsesAs(buf: seq<Byte>, len: nat, offset: nat, ds: seq<Dirent>)
    requires len <= |buf|
  {
    Readable(buf, len, offset) && Records(buf, len, offset) == ds
  }

  lemma {:induction false} FirstRecord(buf: seq<Byte>, len: nat, offset: nat, r: Record)
    requires Fits(r) && HoldsAt(buf, offset, Encode(r)) && offset <= len <= |buf|
    requires PaddedLen(r.dirent) <= len - offset
    requires Readable(buf, len, offset + PaddedLen(r.dirent))
    ensures Readable(buf, len, offset)
    ensures Records(buf, len, offset)
         == [Dirent(r.dirent.dType, UpToNul(r.dirent.name))] + Records(buf, len, offset + PaddedLen(r.dirent))
  {
    RecordReadsBack(buf, offset, r);
  }

  lemma {:induction false} NoRecord(buf: seq<Byte>, len: nat, offset: nat, r: Record)
    requires Fits(r) && HoldsAt(buf, offset, Encode(r)) && offset <= len <= |buf|
    requires PaddedLen(r.dirent) > len - offset
    ensures ParsesAs(buf, len, offset, [])
  {
    FittingLength(buf, offset, r);
  }

  /** The records wholly inside `room` bytes, as they can be read back. */
  function Legible(rs: seq<Record>, room: nat): seq<Dirent> {
    if rs == [] || PaddedLen(rs[0].dirent) > room then []
    else [Dirent(rs[0].dirent.dType, UpToNul(rs[0].dirent.name))] + Legible(rs[1..], room - PaddedLen(rs[0].dirent))
  }

  lemma {:induction false} LegibleIsTruncated(rs: seq<Record>, room: nat)
    ensures Legible(rs, room) == Truncated(rs[..Inside(rs, room)])
  {
    if rs != [] && PaddedLen(rs[0].dirent) <= room {
      LegibleIsTruncated(rs[1..], room - PaddedLen(rs[0].dirent));
    }
  }

  lemma {:induction false} ParsesLegible(buf: seq<Byte>, len: nat, offset: nat, rs: seq<Record>)
    requires AllFit(rs) && HoldsAt(buf, offset, EncodeAll(rs))
    requires offset <= len <= offset + |EncodeAll(rs)|
    ensures ParsesAs(buf, len, offset, Legible(rs, len - offset))
    decreases |rs|
  {
    if rs != [] {
      HoldsBoth(buf, offset, Encode(rs[0]), EncodeAll(rs[1..]));
      if PaddedLen(rs[0].dirent) <= len - offset {
        ParsesLegible(buf, len, offset + PaddedLen(rs[0].dirent), rs[1..]);
        FirstRecord(buf, len, offset, rs[0]);
      } else {
        NoRecord(buf, len, offset, rs[0]);
      }
    }
  }

  /** Parsing any `len` bytes that end inside or right after a list of records gives exactly the
      records wholly inside, in order, whatever is in the buffer before and behind. */
  lemma {:induction false} ParsesWhatIsInside(buf: seq<Byte>, len: nat, offset: nat, rs: seq<Record>)
    requires AllFit(rs) && HoldsAt(buf, offset, EncodeAll(rs))
    requires offset <= len <= offset + |EncodeAll(rs)|
    ensures ParsesAs(buf, len, offset, Truncated(rs[..Inside(rs, len - offset)]))
  {
    ParsesLegible(buf, len, offset, rs);
    LegibleIsTruncated(rs, len - offset);
  }

  function Dirents(rs: seq<Record>): (ds: seq<Dirent>)
    ensures |ds| == |rs|
  {
    seq(|rs|, i requires 0 <= i < |rs| => rs[i].dirent)
  }

  /** Encoding a list and parsing it gives the list back if and only if no name has a NUL. */
  lemma {:induction false} RoundTrip(rs: seq<Record>)
    requires AllFit(rs)
    ensures Readable(EncodeAll(rs), |EncodeAll(rs)|, 0)
    ensures Records(EncodeAll(rs), |EncodeAll(rs)|, 0) == Dirents(rs) <==> AllNulFree(rs)
  {
    var buf := EncodeAll(rs);
    ParsesWhatIsInside(buf, |buf|, 0, rs);
    assert rs[..|rs|] == rs;
    InsideExactly(rs, |buf|, |rs|);
    if Truncated(rs) == Dirents(rs) {
      forall i | 0 <= i < |rs| ensures NulFree(rs[i].dirent.name) {
        assert Truncated(rs)[i] == Dirents(rs)[i];
      }
    }
  }

  lemma {:induction false} NulAtTheEnd(buf: seq<Byte>, offset: nat)
    requires buf != [] && buf[|buf| - 1] == 0
    ensures Readable(buf, |buf|, offset)
    decreases |buf| - offset
  {
    if Whole(buf, |buf|, offset) {
      NulAtTheEnd(buf, offset + RecLen(buf, offset));
    }
  }

  /** Any bytes of a long NUL-free name look like the start of a record. */
  lemma {:induction false} NameLooksWhole(buf: seq<Byte>, name: seq<Byte>, offset: nat)
    requires HoldsAt(buf, NAME_OFFSET, name) && NulFree(name)
    requires NAME_OFFSET <= offset + RECLEN_OFFSET < NAME_OFFSET + |name| - 1 && offset + 0x1_0000 <= |buf|
    ensures Whole(buf, |buf|, offset)
  {
    var i := offset + RECLEN_OFFSET - NAME_OFFSET;
    assert buf[NAME_OFFSET + i] == name[i];
    assert buf[offset + RECLEN_OFFSET] != 0;
  }

  /** The length field is what limits this: a single record, of any length, comes back if and
      only if its length has at most 16 bits and its name no NUL. */
  lemma {:induction false} RecordRoundTrip(r: Record)
    ensures Readable(Encode(r), |Encode(r)|, 0)
    ensures Records(Encode(r), |Encode(r)|, 0) == [r.dirent] <==> Fits(r) && NulFree(r.dirent.name)
  {
    SingleRecord(Encode(r), r);
  }

  /** The buffer holds one record and nothing else. */
  predicate JustOne(buf: seq<Byte>, d: Dirent) {
    && HEADER_SIZE <= |buf| == PaddedLen(d) && RecLen(buf, 0) == |buf| % 0x1_0000
    && buf[TYPE_OFFSET] == d.dType && HoldsAt(buf, NAME_OFFSET, d.name)
    && Terminated(buf, NAME_OFFSET) && StringAt(buf, NAME_OFFSET) == UpToNul(d.name)
    && buf[|buf| - 1] == 0
  }

  lemma {:induction false} EncodesOne(buf: seq<Byte>, r: Record)
    requires HoldsAt(buf, 0, Encode(r)) && |buf| == PaddedLen(r.dirent)
    ensures JustOne(buf, r.dirent)
  {
    RecordReadsBack(buf, 0, r);
    RecordParts(buf, 0, r);
    EndsInNul(buf, r.dirent);
  }

  lemma {:induction false} SingleRecord(buf: seq<Byte>, r: Record)
    requires HoldsAt(buf, 0, Encode(r)) && |buf| == PaddedLen(r.dirent)
    ensures Readable(buf, |buf|, 0)
    ensures Records(buf, |buf|, 0) == [r.dirent] <==> Fits(r) && NulFree(r.dirent.name)
  {
    EncodesOne(buf, r);
    NulAtTheEnd(buf, 0);
    if Fits(r) {
      ShortRecord(buf, r.dirent);
    } else {
      LongRecord(buf, r.dirent);
    }
  }

  lemma {:induction false} EndsInNul(buf: seq<Byte>, d: Dirent)
    requires |buf| == PaddedLen(d) && HoldsAt(buf, NAME_OFFSET + |d.name|, Padding(d))
    ensures buf != [] && buf[|buf| - 1] == 0
  {
    var pad := Padding(d);
    assert buf[NAME_OFFSET + |d.name| + (|pad| - 1)] == pad[|pad| - 1];
  }

  lemma {:induction false} ShortRecord(buf: seq<Byte>, d: Dirent)
    requires JustOne(buf, d) && |buf| < 0x1_0000 && Readable(buf, |buf|, 0)
    ensures Records(buf, |buf|, 0) == [d] <==> NulFree(d.name)
  {
    LoneRecord(buf, d, UpToNul(d.name));
  }

  lemma {:induction false} LongRecord(buf: seq<Byte>, d: Dirent)
    requires JustOne(buf, d) && |buf| >= 0x1_0000 && Readable(buf, |buf|, 0)
    ensures Records(buf, |buf|, 0) != [d]
  {
    CutIsShort(|buf|);
    if RecLen(buf, 0) != 0 {
      if NulFree(d.name) {
        NameLooksWhole(buf, d.name, RecLen(buf, 0));
      }
      LoneRecord(buf, d, UpToNul(d.name));
    }
  }

  lemma {:induction false} CutIsShort(v: nat)
    requires v >= 0x1_0000 && v % 8 == 0
    ensures v % 0x1_0000 + 0x1_0000 <= v && (v % 0x1_0000 == 0 || v % 0x1_0000 >= 8)
  {
  }

  /** A parse that starts with a record gives just the expected one if it has that name and nothing follows. */
  lemma {:induction false} LoneRecord(buf: seq<Byte>, d: Dirent, name: seq<Byte>)
    requires Readable(buf, |buf|, 0) && Whole(buf, |buf|, 0)
    requires buf[TYPE_OFFSET] == d.dType && StringAt(buf, NAME_OFFSET) == name
    ensures Records(buf, |buf|, 0) == [d] <==> name == d.name && !Whole(buf, |buf|, RecLen(buf, 0))
  {
    var first, rest := Dirent(d.dType, name), Records(buf, |buf|, RecLen(buf, 0));
    assert Records(buf, |buf|, 0) == [first] + rest;
    assert ([first] + rest)[0] == first && |[first] + rest| == 1 + |rest|;
  }

  // ---- Enumerating a directory ----

  /** What the system call answers: bytes at the front of the buffer, none at the end. */
  datatype Answer = Filled(buf: seq<Byte>, len: nat) | Refused(code: nat)

  datatype Listing = Listed(entries: seq<Dirent>) | Error(code: nat)

  predicate AnswersOk(answers: seq<Answer>) {
    forall a | a in answers && a.Filled? :: a.len <= |a.buf| && Readable(a.buf, a.len, 0)
  }

  predicate IsDot(name: seq<Byte>) {
    name == [DOT] || name == [DOT, DOT]
  }

  const IS_LISTED: Dirent -> bool := (d: Dirent) => d.name != [46] && d.name != [46, 46]
  const IS_DIRECTORY: Dirent -> bool := (d: Dirent) => d.dType == 4

  function NoDots(ds: seq<Dirent>): seq<Dirent> {
    Select(ds, IS_LISTED)
  }

  function Directories(ds: seq<Dirent>): seq<Dirent> {
    Select(ds, IS_DIRECTORY)
  }

  /** The records of the answers up to the end of the directory or an error. */
  function Delivered(answers: seq<Answer>): seq<Dirent>
    requires AnswersOk(answers)
  {
    if answers == [] || answers[0].Refused? || answers[0].len == 0 then []
    else Records(answers[0].buf, answers[0].len, 0) + Delivered(answers[1..])
  }

  datatype Ending = Clean | Broken(code: nat)

  function EndOf(answers: seq<Answer>): Ending {
    if answers == [] then Clean
    else if answers[0].Refused? then Broken(answers[0].code)
    else if answers[0].len == 0 then Clean
    else EndOf(answers[1..])
  }

  function ListingOf(answers: seq<Answer>): Listing
    requires AnswersOk(answers)
  {
    match EndOf(answers)
    case Clean => Listed(NoDots(Delivered(answers)))
    case Broken(code) => Error(code)
  }

  /** In numbers: what is listed is what is delivered but the names "." and "..", and the
      directories are the entries of type 4. */
  lemma {:induction false} ListedExactly(ds: seq<Dirent>, d: Dirent)
    ensures d in NoDots(ds) <==> d in ds && d.name != [46] && d.name != [46, 46]
    ensures d in Directories(ds) <==> d in ds && d.dType == 4
  {
    SelectWithin(ds, IS_LISTED);
    SelectWithin(ds, IS_DIRECTORY);
  }

  /** The callback of `enumerate_dir_unix`, called once a record. */
  method Collect(entries: seq<Dirent>, calls: seq<Dirent>) returns (all: seq<Dirent>)
    ensures all == entries + NoDots(calls)
  {
    all := entries;
    for k := 0 to |calls|
      invariant all == entries + NoDots(calls[..k])
    {
      SelectNext(calls, k, IS_LISTED);
      if !IsDot(calls[k].name) {
        all := all + [calls[k]];
      }
    }
    assert calls[..|calls|] == calls;
  }

  /** The callback of `enumerate_dir_unix_streaming`. */
  method CollectStreaming(entries: seq<Dirent>, calls: seq<Dirent>)
    returns (all: seq<Dirent>, subdirs: seq<Dirent>)
    ensures all == entries + NoDots(calls)
    ensures subdirs == Directories(NoDots(calls))
  {
    all, subdirs := entries, [];
    for k := 0 to |calls|
      invariant all == entries + NoDots(calls[..k])
      invariant subdirs == Directories(NoDots(calls[..k]))
    {
      SelectNext(calls, k, IS_LISTED);
      if !IsDot(calls[k].name) {
        SelectAppend(NoDots(calls[..k]), calls[k], IS_DIRECTORY);
        if calls[k].dType == DT_DIR {
          subdirs := subdirs + [calls[k]];
        }
        all := all + [calls[k]];
      }
    }
    assert calls[..|calls|] == calls;
  }

  /** The answers from the `i`-th on complete the listing. */
  predicate Remaining(answers: seq<Answer>, i: nat, entries: seq<Dirent>)
    requires AnswersOk(answers) && i <= |answers|
  {
    && AnswersOk(answers[i..])
    && entries + NoDots(Delivered(answers[i..])) == NoDots(Delivered(answers))
    && EndOf(answers[i..]) == EndOf(answers)
  }

  lemma {:induction false} RemainingAtFirst(answers: seq<Answer>)
    requires AnswersOk(answers)
    ensures Remaining(answers, 0, [])
  {
    assert answers[0..] == answers;
  }

  lemma {:induction false} RemainingNext(answers: seq<Answer>, i: nat, entries: seq<Dirent>)
    requires i < |answers| && AnswersOk(answers) && Remaining(answers, i, entries)
    requires answers[i].Filled? && answers[i].len > 0
    ensures var a := answers[i];
            && a.len <= |a.buf| && Readable(a.buf, a.len, 0)
            && Remaining(answers, i + 1, entries + NoDots(Records(a.buf, a.len, 0)))
  {
    var rest, a := answers[i..], answers[i];
    assert rest[0] == a && rest[1..] == answers[i + 1..];
    assert a in answers;
    var now, later := NoDots(Records(a.buf, a.len, 0)), NoDots(Delivered(rest[1..]));
    SelectConcat(Records(a.buf, a.len, 0), Delivered(rest[1..]), IS_LISTED);
    assert (entries + now) + later == entries + (now + later);
  }

  lemma {:induction false} RemainingAtLast(answers: seq<Answer>, i: nat, entries: seq<Dirent>)
    requires i <= |answers| && AnswersOk(answers) && Remaining(answers, i, entries)
    requires i == |answers| || answers[i].Refused? || answers[i].len == 0
    ensures entries == NoDots(Delivered(answers))
    ensures ListingOf(answers)
         == if i < |answers| && answers[i].Refused? then Error(answers[i].code) else Listed(entries)
  {
  }

  /** `enumerate_dir_unix`. */
  method EnumerateDir(answers: seq<Answer>) returns (listing: Listing)
    requires AnswersOk(answers)
    ensures listing == ListingOf(answers)
    ensures listing.Listed? ==>
              forall d :: d in listing.entries <==> d in Delivered(answers) && d.name != [46] && d.name != [46, 46]
  {
    var entries := [];
    var i := 0;
    RemainingAtFirst(answers);
    while i < |answers|
      invariant i <= |answers| && Remaining(answers, i, entries)
    {
      var answer := answers[i];
      if answer.Refused? {
        RemainingAtLast(answers, i, entries);
        return Error(answer.code);
      }
      if answer.len == 0 {
        break;
      }
      RemainingNext(answers, i, entries);
      var calls := ParseDirents(answer.buf, answer.len);
      entries := Collect(entries, calls);
      i := i + 1;
    }
    RemainingAtLast(answers, i, entries);
    AllListedExactly(Delivered(answers));
    listing := Listed(entries);
  }

  lemma {:induction false} AllListedExactly(ds: seq<Dirent>)
    ensures forall d :: d in NoDots(ds) <==> d in ds && d.name != [46] && d.name != [46, 46]
    ensures forall d :: d in Directories(NoDots(ds)) <==>
                        d in ds && d.name != [46] && d.name != [46, 46] && d.dType == 4
  {
    forall d
      ensures d in NoDots(ds) <==> d in ds && d.name != [46] && d.name != [46, 46]
      ensures d in Directories(NoDots(ds)) <==>
              d in ds && d.name != [46] && d.name != [46, 46] && d.dType == 4
    {
      ListedExactly(ds, d);
      ListedExactly(NoDots(ds), d);
    }
  }

  /** `enumerate_dir_unix_streaming`: the same listing, and a call for every directory in it,
      in order; when the enumeration breaks off, for every directory seen before. */
  method EnumerateDirStreaming(answers: seq<Answer>) returns (listing: Listing, subdirs: seq<Dirent>)
    requires AnswersOk(answers)
    ensures listing == ListingOf(answers)
    ensures subdirs == Directories(NoDots(Delivered(answers)))
    ensures forall d :: d in subdirs <==>
                        d in Delivered(answers) && d.name != [46] && d.name != [46, 46] && d.dType == 4
  {
    var entries := [];
    subdirs := [];
    var i := 0;
    RemainingAtFirst(answers);
    AllListedExactly(Delivered(answers));
    while i < |answers|
      invariant i <= |answers| && Remaining(answers, i, entries)
      invariant subdirs == Directories(entries)
    {
      var answer := answers[i];
      if answer.Refused? {
        RemainingAtLast(answers, i, entries);
        return Error(answer.code), subdirs;
      }
      if answer.len == 0 {
        break;
      }
      RemainingNext(answers, i, entries);
      var calls := ParseDirents(answer.buf, answer.len);
      SelectConcat(entries, NoDots(calls), IS_DIRECTORY);
      var found;
      entries, found := CollectStreaming(entries, calls);
      subdirs := subdirs + found;
      i := i + 1;
    }
    RemainingAtLast(answers, i, entries);
    listing := Listed(entries);
  }

  // ---- Any batching gives the same listing ----

  /** The answers when the records come in the given batches, then the end. */
  predicate Batched(answers: seq<Answer>, batches: seq<seq<Record>>) {
    && |answers| == |batches| + 1
    && answers[|batches|].Filled? && answers[|batches|].len == 0
    && forall i | 0 <= i < |batches| ::
         && batches[i] != []
         && AllFit(batches[i]) && AllNulFree(batches[i])
         && answers[i].Filled?
         && answers[i].len == |EncodeAll(batches[i])|
         && HoldsAt(answers[i].buf, 0, EncodeAll(batches[i]))
  }

  function Joined(batches: seq<seq<Record>>): seq<Record> {
    if batches == [] then [] else batches[0] + Joined(batches[1..])
  }

  lemma {:induction false} BatchReadsBack(buf: seq<Byte>, rs: seq<Record>)
    requires AllFit(rs) && AllNulFree(rs)
    requires HoldsAt(buf, 0, EncodeAll(rs))
    ensures var len := |EncodeAll(rs)|; Readable(buf, len, 0) && Records(buf, len, 0) == Dirents(rs)
  {
    var len := |EncodeAll(rs)|;
    ParsesWhatIsInside(buf, len, 0, rs);
    assert rs[..|rs|] == rs;
    InsideExactly(rs, len, |rs|);
    assert Truncated(rs) == Dirents(rs);
  }

  lemma {:induction false} DirentsConcat(a: seq<Record>, b: seq<Record>)
    ensures Dirents(a + b) == Dirents(a) + Dirents(b)
  {
  }

  /** However the records of a directory are cut into batches, and whatever else is in the buffer,
      both enumerators list them in order, without the two dots. */
  lemma {:induction false} BatchingDoesNotMatter(answers: seq<Answer>, batches: seq<seq<Record>>)
    requires Batched(answers, batches)
    ensures AnswersOk(answers) && EndOf(answers) == Clean
    ensures Delivered(answers) == Dirents(Joined(batches))
    ensures ListingOf(answers) == Listed(NoDots(Dirents(Joined(batches))))
    decreases |batches|
  {
    if batches != [] {
      var a := answers[0];
      BatchReadsBack(a.buf, batches[0]);
      assert a.len >= |Encode(batches[0][0])|;
      assert Batched(answers[1..], batches[1..]);
      BatchingDoesNotMatter(answers[1..], batches[1..]);
      assert answers == [a] + answers[1..];
      DirentsConcat(batches[0], Joined(batches[1..]));
    }
  }
}
