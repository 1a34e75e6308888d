/** Reading a log that may have been cut off anywhere (db/log_reader.cc). */
module LogReading {
  import opened Keys
  import opened Coding
  import opened LogChecksum
  import opened LogFormat

  datatype Physical = Eof | Bad | Fragment(kind: byte, data: Bytes)

  /**
   * What the reader finds, what it has left to read, the room from there to the end of its block, and how
   * many corruptions it reports.
   */
  datatype Found<T> = Found(what: T, rest: Bytes, room: nat, reports: nat)

  function LengthAt(s: Bytes): nat
    requires HEADER <= |s|
  {
    s[4] as nat + 256 * s[5] as nat
  }

  /** ReadPhysicalRecord, when `s` is left of the file and `room` bytes of them would fill the block. */
  function ReadPhysical(c: Checksum, s: Bytes, room: nat): (r: Found<Physical>)
    requires room <= BLOCK
    ensures r.room <= BLOCK && |r.rest| <= |s| && (!r.what.Eof? ==> |r.rest| < |s|)
    decreases |s|, if room < HEADER then 1 else 0
  {
    var atEof := |s| < room;
    var buffer := if atEof then |s| else room;
    if buffer < HEADER then
      if atEof then Found(Eof, [], room - |s|, 0) else ReadPhysical(c, s[room..], BLOCK)
    else
      var length, kind := LengthAt(s), s[6];
      var size := HEADER + length;
      if size > buffer then
        if atEof then Found(Eof, [], room - |s|, 0) else Found(Bad, s[buffer..], 0, 1)
      else if kind == ZERO && length == 0 then Found(Bad, s[buffer..], room - buffer, 0)
      else if !c.accept(s[..4], s[6..size]) then Found(Bad, s[buffer..], room - buffer, 1)
      else Found(Fragment(kind, s[HEADER..size]), s[size..], room - size, 0)
  }

  function One(b: bool): nat {
    if b then 1 else 0
  }

  function Reporting<T>(r: Found<T>, n: nat): Found<T> {
    r.(reports := n + r.reports)
  }

  /** What ReadRecord does after a physical record: stop with a record or without, or go on; and what it reports. */
  datatype Turn = Stop(record: Option<Bytes>) | Go(inside: bool, scratch: Bytes)

  function TurnOn(what: Physical, inside: bool, scratch: Bytes): (r: (Turn, nat))
    ensures what.Eof? ==> r.0.Stop?
    ensures r.0.Stop? && r.0.record.Some? ==> what.Fragment?
  {
    match what
    case Eof => (Stop(None), 0)
    case Bad => (Go(false, if inside then [] else scratch), One(inside))
    case Fragment(kind, data) =>
      if kind == FULL then (Stop(Some(data)), One(inside && scratch != []))
      else if kind == FIRST then (Go(true, data), One(inside && scratch != []))
      else if kind == MIDDLE then (Go(inside, if inside then scratch + data else scratch), One(!inside))
      else if kind == LAST then (if inside then Stop(Some(scratch + data)) else Go(false, scratch), One(!inside))
      else (Go(false, []), 1)
  }

  /** ReadRecord, from inside or outside a fragmented record. */
  function ReadLogical(c: Checksum, s: Bytes, room: nat, inside: bool, scratch: Bytes): (r: Found<Option<Bytes>>)
    requires room <= BLOCK
    ensures r.room <= BLOCK && (r.what.Some? ==> |r.rest| < |s|)
    decreases |s|
  {
    var Found(what, rest, left, n) := ReadPhysical(c, s, room);
    var (turn, m) := TurnOn(what, inside, scratch);
    match turn
    case Stop(record) => Found(record, rest, left, n + m)
    case Go(inside', scratch') => Reporting(ReadLogical(c, rest, left, inside', scratch'), n + m)
  }

  /** Reading until ReadRecord says there is no more: the records, and the number of corruptions reported. */
  function ReadAll(c: Checksum, s: Bytes, room: nat): (seq<Bytes>, nat)
    requires room <= BLOCK
    decreases |s|
  {
    var Found(record, rest, left, n) := ReadLogical(c, s, room, false, []);
    match record
    case None => ([], n)
    case Some(data) =>
      var r := ReadAll(c, rest, left);
      ([data] + r.0, n + r.1)
  }

  // ----- a piece under the reader -----

  /** Cutting off the end of `part + more` leaves all of `part`, and some of `more`, or only some of `part`. */
  lemma SplitCut(s: Bytes, part: Bytes, more: Bytes)
    requires s <= part + more
    ensures |part| <= |s| ==> s[..|part|] == part && s[|part|..] <= more
    ensures |s| <= |part| ==> s <= part
  {
    if |part| <= |s| {
      assert s[|part|..] == (part + more)[|part|..|s|];
      assert more[..|s| - |part|] == (part + more)[|part|..|s|];
    }
  }

  lemma PieceParts(c: Checksum, kind: byte, payload: Bytes)
    requires Good(c) && |payload| <= 0xffff
    ensures var p := Piece(c, kind, payload);
      && |p| == HEADER + |payload| && LengthAt(p) == |payload| && p[6] == kind
      && p[..4] == c.seal([kind] + payload) && p[6..] == [kind] + payload && p[HEADER..] == payload
  {
    assert |c.seal([kind] + payload)| == 4;
  }

  lemma WholePiece(c: Checksum, s: Bytes, room: nat, kind: byte, payload: Bytes)
    requires Good(c) && |payload| <= 0xffff && kind != ZERO && HEADER + |payload| <= room <= BLOCK
    requires HEADER + |payload| <= |s| && s[..HEADER + |payload|] == Piece(c, kind, payload)
    ensures ReadPhysical(c, s, room)
         == Found(Fragment(kind, payload), s[HEADER + |payload|..], room - HEADER - |payload|, 0)
  {
    var p := Piece(c, kind, payload);
    PieceParts(c, kind, payload);
    assert s[4] == p[4] && s[5] == p[5] && s[6] == p[6];
    assert s[..4] == p[..4] && s[6..|p|] == p[6..] && s[HEADER..|p|] == p[HEADER..];
  }

  lemma CutPiece(c: Checksum, s: Bytes, room: nat, kind: byte, payload: Bytes)
    requires Good(c) && |payload| <= 0xffff && HEADER + |payload| <= room <= BLOCK
    requires s <= Piece(c, kind, payload) && |s| < HEADER + |payload|
    ensures ReadPhysical(c, s, room).what == Eof && ReadPhysical(c, s, room).reports == 0
  {
    PieceParts(c, kind, payload);
  }

  // ----- a record under the reader -----

  /**
   * What reading has to give for `data`, laid out at the front of what `s` was cut from: the record if it is
   * all there, and otherwise nothing, without complaint.
   */
  ghost predicate Reads(c: Checksum, s: Bytes, room: nat, data: Bytes, begin: bool, scratch: Bytes)
    requires room <= BLOCK
  {
    var size := |Layout(c, room, data, begin)|;
    var r := ReadLogical(c, s, room, !begin, scratch);
    if size <= |s| then r == Found(Some(scratch + data), s[size..], RoomAfter(room, data), 0)
    else r.what == None && r.reports == 0
  }

  lemma ReadsLast(c: Checksum, s: Bytes, room: nat, data: Bytes, begin: bool, scratch: Bytes, more: Bytes)
    requires Good(c) && HEADER + |data| <= room <= BLOCK
    requires begin ==> scratch == []
    requires s <= Piece(c, KindOf(begin, true), data) + more
    ensures Reads(c, s, room, data, begin, scratch)
  {
    LastPiece(c, room, data, begin);
    PieceParts(c, KindOf(begin, true), data);
    SplitCut(s, Piece(c, KindOf(begin, true), data), more);
    if HEADER + |data| <= |s| {
      WholePiece(c, s, room, KindOf(begin, true), data);
      assert begin ==> scratch + data == data;
    } else {
      CutPiece(c, s, room, KindOf(begin, true), data);
    }
  }

  /** A trailer too short for a header is skipped. */
  lemma TrailerSkipped(c: Checksum, s: Bytes, room: nat, inside: bool, scratch: Bytes)
    requires room < HEADER && room <= |s|
    ensures ReadLogical(c, s, room, inside, scratch) == ReadLogical(c, s[room..], BLOCK, inside, scratch)
  {
    assert ReadPhysical(c, s, room) == ReadPhysical(c, s[room..], BLOCK);
  }

  lemma ReadsTrailer(c: Checksum, s: Bytes, room: nat, data: Bytes, begin: bool, scratch: Bytes)
    requires room < HEADER
    requires room <= |s| ==> Reads(c, s[room..], BLOCK, data, begin, scratch)
    ensures Reads(c, s, room, data, begin, scratch)
  {
    SwitchedLayout(c, room, data, begin);
    if room <= |s| {
      TrailerSkipped(c, s, room, !begin, scratch);
    }
  }

  lemma ScratchGrows(scratch: Bytes, data: Bytes, length: nat)
    requires length <= |data|
    ensures (scratch + data[..length]) + data[length..] == scratch + data
    ensures scratch == [] ==> scratch + data[..length] == data[..length]
  {
    assert data[..length] + data[length..] == data;
  }

  lemma ReadsMore(c: Checksum, s: Bytes, length: nat, data: Bytes, begin: bool, scratch: Bytes, more: Bytes)
    requires Good(c) && HEADER + length <= BLOCK && length < |data|
    requires begin ==> scratch == []
    requires s <= Piece(c, KindOf(begin, false), data[..length]) + more
    requires HEADER + length <= |s| ==>
        Reads(c, s[HEADER + length..], 0, data[length..], false, scratch + data[..length])
    ensures Reads(c, s, HEADER + length, data, begin, scratch)
  {
    var p := Piece(c, KindOf(begin, false), data[..length]);
    FullPiece(c, length, data, begin);
    PieceParts(c, KindOf(begin, false), data[..length]);
    SplitCut(s, p, more);
    if |p| <= |s| {
      WholePiece(c, s, HEADER + length, KindOf(begin, false), data[..length]);
      GoesOn(c, s, length, data, begin, scratch);
    } else {
      CutPiece(c, s, HEADER + length, KindOf(begin, false), data[..length]);
    }
  }

  /** Over a piece that is not the last one, to the rest of the record in the next block. */
  lemma GoesOn(c: Checksum, s: Bytes, length: nat, data: Bytes, begin: bool, scratch: Bytes)
    requires HEADER + length <= BLOCK && length < |data| && HEADER + length <= |s| && (begin ==> scratch == [])
    requires ReadPhysical(c, s, HEADER + length)
          == Found(Fragment(KindOf(begin, false), data[..length]), s[HEADER + length..], 0, 0)
    ensures ReadLogical(c, s, HEADER + length, !begin, scratch)
         == ReadLogical(c, s[HEADER + length..], 0, true, scratch + data[..length])
    ensures (scratch + data[..length]) + data[length..] == scratch + data
  {
    ScratchGrows(scratch, data, length);
  }

  /** A record reads back from its layout, or reads as the end of the file. */
  lemma {:induction false} LayoutRead(c: Checksum, s: Bytes, room: nat, data: Bytes, begin: bool, scratch: Bytes,
                                      more: Bytes)
    requires Good(c) && room <= BLOCK
    requires begin ==> scratch == []
    requires s <= Layout(c, room, data, begin) + more
    ensures Reads(c, s, room, data, begin, scratch)
    decreases |data|, if room <= HEADER then 1 else 0, if room < HEADER then 1 else 0
  {
    if room < HEADER {
      var next := Layout(c, BLOCK, data, begin);
      SwitchedLayout(c, room, data, begin);
      Regroup(Zeros(room), next, more);
      SplitCut(s, Zeros(room), next + more);
      if room <= |s| {
        LayoutRead(c, s[room..], BLOCK, data, begin, scratch, more);
      }
      ReadsTrailer(c, s, room, data, begin, scratch);
    } else if HEADER + |data| <= room {
      LastPiece(c, room, data, begin);
      ReadsLast(c, s, room, data, begin, scratch, more);
    } else {
      var length := room - HEADER;
      var p, next := Piece(c, KindOf(begin, false), data[..length]), Layout(c, BLOCK, data[length..], false);
      FullPiece(c, length, data, begin);
      PieceParts(c, KindOf(begin, false), data[..length]);
      Regroup(p, next, more);
      SplitCut(s, p, next + more);
      if room <= |s| {
        LayoutRead(c, s[room..], BLOCK, data[length..], false, scratch + data[..length], more);
        assert s[room..][0..] == s[room..];
        ReadsTrailer(c, s[room..], 0, data[length..], false, scratch + data[..length]);
      }
      ReadsMore(c, s, length, data, begin, scratch, next + more);
    }
  }

  // ----- the whole log under the reader -----

  lemma ReadAllStep(c: Checksum, s: Bytes, room: nat, record: Bytes, size: nat, next: nat)
    requires room <= BLOCK && size == |Layout(c, room, record, true)| && next == RoomAfter(room, record)
    requires Reads(c, s, room, record, true, [])
    ensures ReadAll(c, s, room)
         == if size <= |s| then ([record] + ReadAll(c, s[size..], next).0, ReadAll(c, s[size..], next).1) else ([], 0)
  {
    assert [] + record == record;
  }

  lemma FirstRead(c: Checksum, s: Bytes, room: nat, records: seq<Bytes>)
    requires Good(c) && room <= BLOCK && records != []
    requires s <= Log(c, room, records)
    ensures var size, next := |Layout(c, room, records[0], true)|, RoomAfter(room, records[0]);
      if size <= |s| then
        && s[size..] <= Log(c, next, records[1..])
        && ReadAll(c, s, room) == ([records[0]] + ReadAll(c, s[size..], next).0, ReadAll(c, s[size..], next).1)
      else ReadAll(c, s, room) == ([], 0)
  {
    var size, next := |Layout(c, room, records[0], true)|, RoomAfter(room, records[0]);
    var more := Log(c, next, records[1..]);
    SplitCut(s, Layout(c, room, records[0], true), more);
    LayoutRead(c, s, room, records[0], true, [], more);
    ReadAllStep(c, s, room, records[0], size, next);
  }

  /** Where the first `k` records of a log end. */
  function EndOf(c: Checksum, room: nat, records: seq<Bytes>, k: nat): nat
    requires room <= BLOCK && k <= |records|
    decreases k
  {
    if k == 0 then 0
    else |Layout(c, room, records[0], true)| + EndOf(c, RoomAfter(room, records[0]), records[1..], k - 1)
  }

  lemma {:induction false} EndIsLength(c: Checksum, room: nat, records: seq<Bytes>, k: nat)
    requires room <= BLOCK && k <= |records|
    ensures EndOf(c, room, records, k) == |Log(c, room, records[..k])|
    decreases k
  {
    if k > 0 {
      assert records[..k][1..] == records[1..][..k - 1];
      EndIsLength(c, RoomAfter(room, records[0]), records[1..], k - 1);
    }
  }

  /** `s` is a log cut off after its first `k` records and before the end of the next. */
  ghost predicate CutAfter(c: Checksum, s: Bytes, room: nat, records: seq<Bytes>, k: nat)
    requires room <= BLOCK && k <= |records|
  {
    s <= Log(c, room, records) && EndOf(c, room, records, k) <= |s|
        && (k < |records| ==> |s| < EndOf(c, room, records, k + 1))
  }

  lemma CutAfterFirst(c: Checksum, s: Bytes, room: nat, records: seq<Bytes>, k: nat)
    requires room <= BLOCK && 0 < k <= |records| && CutAfter(c, s, room, records, k)
    ensures var size, next := |Layout(c, room, records[0], true)|, RoomAfter(room, records[0]);
      size <= |s| && CutAfter(c, s[size..], next, records[1..], k - 1)
  {
    SplitCut(s, Layout(c, room, records[0], true), Log(c, RoomAfter(room, records[0]), records[1..]));
  }

  lemma JoinRead(c: Checksum, s: Bytes, room: nat, records: seq<Bytes>, k: nat, size: nat, next: nat)
    requires Good(c) && room <= BLOCK && 0 < k <= |records|
    requires s <= Log(c, room, records)
    requires size == |Layout(c, room, records[0], true)| <= |s| && next == RoomAfter(room, records[0])
    requires ReadAll(c, s[size..], next) == (records[1..][..k - 1], 0)
    ensures ReadAll(c, s, room) == (records[..k], 0)
  {
    FirstRead(c, s, room, records);
    assert [records[0]] + records[1..][..k - 1] == records[..k];
  }

  lemma NoneRead(c: Checksum, s: Bytes, room: nat, records: seq<Bytes>)
    requires Good(c) && room <= BLOCK && records != []
    requires CutAfter(c, s, room, records, 0)
    ensures ReadAll(c, s, room) == (records[..0], 0)
  {
    FirstRead(c, s, room, records);
  }

  /** From the start of a record: exactly the records that end inside the file are read, and nothing is reported. */
  lemma {:induction false} LogRead(c: Checksum, s: Bytes, room: nat, records: seq<Bytes>, k: nat)
    requires Good(c) && room <= BLOCK && k <= |records|
    requires CutAfter(c, s, room, records, k)
    ensures ReadAll(c, s, room) == (records[..k], 0)
    decreases |records|
  {
    if records == [] {
      EmptyRead(c, room);
    } else if k == 0 {
      NoneRead(c, s, room, records);
    } else {
      var size, next := |Layout(c, room, records[0], true)|, RoomAfter(room, records[0]);
      CutAfterFirst(c, s, room, records, k);
      LogRead(c, s[size..], next, records[1..], k - 1);
      JoinRead(c, s, room, records, k, size, next);
    }
  }

  lemma EmptyRead(c: Checksum, room: nat)
    requires room <= BLOCK
    ensures ReadAll(c, [], room) == ([], 0)
  {
    if room == 0 {
      assert ReadPhysical(c, [], room) == ReadPhysical(c, [], BLOCK);
    }
  }

  /**
   * Whatever was cut off the end of a log, reading it gives exactly the records whose last byte is still
   * there, in order, and reports no corruption.
   */
  lemma PrefixReads(c: Checksum, records: seq<Bytes>, n: nat, k: nat)
    requires Good(c) && n <= |Log(c, BLOCK, records)| && k <= |records|
    requires |Log(c, BLOCK, records[..k])| <= n
    requires k < |records| ==> n < |Log(c, BLOCK, records[..k + 1])|
    ensures ReadAll(c, Log(c, BLOCK, records)[..n], 0) == (records[..k], 0)
  {
    var s := Log(c, BLOCK, records)[..n];
    PrefixIsCut(c, s, BLOCK, records, n, k);
    StartOfFile(c, s);
    LogRead(c, s, BLOCK, records, k);
  }

  lemma PrefixIsCut(c: Checksum, s: Bytes, room: nat, records: seq<Bytes>, n: nat, k: nat)
    requires room <= BLOCK && n <= |Log(c, room, records)| && s == Log(c, room, records)[..n] && k <= |records|
    requires |Log(c, room, records[..k])| <= n && (k < |records| ==> n < |Log(c, room, records[..k + 1])|)
    ensures CutAfter(c, s, room, records, k)
  {
    EndIsLength(c, room, records, k);
    if k < |records| { EndIsLength(c, room, records, k + 1); }
  }

  /** The reader starts with an empty buffer, which is where the first block starts. */
  lemma StartOfFile(c: Checksum, s: Bytes)
    ensures ReadAll(c, s, 0) == ReadAll(c, s, BLOCK)
  {
    assert s[0..] == s;
    TrailerSkipped(c, s, 0, false, []);
  }

  // ----- the reader -----

  /** What the buffer begins with, how many bytes of it that takes, and the number of reports. */
  function ParseFront(c: Checksum, buffer: Bytes, eof: bool): (r: (Physical, nat, nat))
    requires HEADER <= |buffer|
    ensures r.1 <= |buffer|
  {
    var size := HEADER + LengthAt(buffer);
    if size > |buffer| then (if eof then (Eof, |buffer|, 0) else (Bad, |buffer|, 1))
    else if buffer[6] == ZERO && LengthAt(buffer) == 0 then (Bad, |buffer|, 0)
    else if !c.accept(buffer[..4], buffer[6..size]) then (Bad, |buffer|, 1)
    else (Fragment(buffer[6], buffer[HEADER..size]), size, 0)
  }

  lemma FrontParts(front: Bytes, s: Bytes)
    requires HEADER <= |front| <= |s| && s[..|front|] == front
    ensures LengthAt(front) == LengthAt(s) && front[6] == s[6]
    ensures front[..4] == s[..4]
    ensures HEADER + LengthAt(s) <= |front| ==>
              && front[6..HEADER + LengthAt(s)] == s[6..HEADER + LengthAt(s)]
              && front[HEADER..HEADER + LengthAt(s)] == s[HEADER..HEADER + LengthAt(s)]
  {
    assert forall i :: 0 <= i < |front| ==> front[i] == s[i];
  }

  lemma ParsedFront(c: Checksum, s: Bytes, room: nat, buffer: Bytes, eof: bool)
    requires room <= BLOCK && HEADER <= |buffer| <= |s| && s[..|buffer|] == buffer
    requires (eof <==> |s| < room) && |buffer| == if eof then |s| else room
    ensures var (what, taken, reports) := ParseFront(c, buffer, eof);
      ReadPhysical(c, s, room) == Found(what, s[taken..], room - taken, reports)
  {
    FrontParts(buffer, s);
    if eof { assert s[|s|..] == []; }
  }

  lemma WholeFile(file: Bytes)
    ensures file[0..0] == [] && file[0..] == file
  {
  }

  /** log::Reader with checksums and a reporter, from the start of the file. */
  class Reader {
    const c: Checksum
    const file: Bytes
    var filePos: nat
    var buffer: Bytes
    var eof: bool
    var reports: nat
    ghost var limit: nat

    /** The end of the buffer is the end of a block, unless the last read was short. */
    ghost predicate Valid()
      reads this
    {
      && |buffer| <= filePos <= |file| && buffer == file[filePos - |buffer|..filePos]
      && filePos - |buffer| <= limit <= filePos - |buffer| + BLOCK
      && (if eof then filePos == |file| < limit else limit == filePos)
    }

    ghost function Left(): (s: Bytes)
      requires Valid()
      reads this
    {
      file[filePos - |buffer|..]
    }

    ghost function Room(): (r: nat)
      requires Valid()
      reads this
      ensures r <= BLOCK
    {
      limit - (filePos - |buffer|)
    }

    constructor (checksum: Checksum, contents: Bytes)
      ensures Valid() && c == checksum && Left() == contents && Room() == 0 && reports == 0
    {
      c := checksum;
      file := contents;
      filePos := 0;
      buffer := [];
      eof := false;
      reports := 0;
      limit := 0;
      new;
      WholeFile(contents);
    }

    /** SequentialFile::Read of one block. */
    method ReadBlock()
      requires Valid() && !eof
      modifies `filePos, `buffer, `eof, `limit
      ensures Valid() && limit == old(limit) + BLOCK && Left() == old(file[filePos..])
      ensures Room() == BLOCK
    {
      var n := if |file| - filePos < BLOCK then |file| - filePos else BLOCK;
      buffer := file[filePos..filePos + n];
      filePos := filePos + n;
      limit := limit + BLOCK;
      if |buffer| < BLOCK {
        eof := true;
      }
    }

    method Clear()
      requires Valid()
      modifies `buffer
      ensures Valid() && buffer == [] && Left() == file[filePos..]
    {
      buffer := [];
    }

    method RemovePrefix(n: nat)
      requires Valid() && n <= |buffer|
      modifies `buffer
      ensures Valid() && Left() == old(Left())[n..] && Room() == old(Room()) - n
    {
      buffer := buffer[n..];
    }

    lemma BufferIsFront()
      requires Valid()
      ensures |buffer| <= |Left()| && Left()[..|buffer|] == buffer
      ensures |buffer| == if eof then |Left()| else Room()
      ensures eof <==> |Left()| < Room()
    {
    }

    /** A header that has been read in is parsed. */
    method ParseBuffer() returns (what: Physical)
      requires Valid() && |buffer| >= HEADER
      modifies `buffer, `reports
      ensures Valid() && reports >= old(reports)
      ensures ReadPhysical(c, old(Left()), old(Room())) == Found(what, Left(), Room(), reports - old(reports))
    {
      BufferIsFront();
      ParsedFront(c, Left(), Room(), buffer, eof);
      var taken;
      what, taken := TakeFront();
      RemovePrefix(taken);
    }

    method TakeFront() returns (what: Physical, taken: nat)
      requires |buffer| >= HEADER
      modifies `reports
      ensures reports >= old(reports)
      ensures (what, taken, reports - old(reports)) == ParseFront(c, buffer, eof)
    {
      var length, kind := LengthAt(buffer), buffer[6];
      var size := HEADER + length;
      taken := |buffer|;
      if size > |buffer| {
        if !eof {
          reports := reports + 1;
          return Bad, taken;
        }
        return Eof, taken;
      }
      if kind == ZERO && length == 0 {
        return Bad, taken;
      }
      if !c.accept(buffer[..4], buffer[6..size]) {
        reports := reports + 1;
        return Bad, taken;
      }
      return Fragment(kind, buffer[HEADER..size]), size;
    }

    method ReadPhysicalRecord() returns (what: Physical)
      requires Valid()
      modifies this
      ensures Valid() && reports >= old(reports)
      ensures ReadPhysical(c, old(Left()), old(Room())) == Found(what, Left(), Room(), reports - old(reports))
    {
      while |buffer| < HEADER
        invariant Valid() && reports == old(reports)
        invariant ReadPhysical(c, old(Left()), old(Room())) == ReadPhysical(c, Left(), Room())
        decreases !eof, |file| - filePos
      {
        BufferIsFront();
        if eof {
          Clear();
          return Eof;
        }
        assert Left()[Room()..] == file[filePos..];
        ReadBlock();
      }
      what := ParseBuffer();
    }

    method Handle(what: Physical, inside: bool, scratch: Bytes) returns (turn: Turn)
      requires Valid()
      modifies `reports
      ensures Valid() && Left() == old(Left()) && Room() == old(Room()) && reports >= old(reports)
      ensures TurnOn(what, inside, scratch) == (turn, reports - old(reports))
    {
      match what
      case Eof =>
        turn := Stop(None);
      case Bad =>
        if inside {
          reports := reports + 1;
          turn := Go(false, []);
        } else {
          turn := Go(inside, scratch);
        }
      case Fragment(kind, data) =>
        if kind == FULL {
          if inside && scratch != [] { reports := reports + 1; }
          turn := Stop(Some(data));
        } else if kind == FIRST {
          if inside && scratch != [] { reports := reports + 1; }
          turn := Go(true, data);
        } else if kind == MIDDLE {
          if !inside { reports := reports + 1; }
          turn := Go(inside, if inside then scratch + data else scratch);
        } else if kind == LAST {
          if !inside {
            reports := reports + 1;
            turn := Go(inside, scratch);
          } else {
            turn := Stop(Some(scratch + data));
          }
        } else {
          reports := reports + 1;
          turn := Go(false, []);
        }
    }

    /** ReadRecord: the next whole record, if there is one. */
    method ReadRecord() returns (record: Option<Bytes>)
      requires Valid()
      modifies this
      ensures Valid() && reports >= old(reports)
      ensures ReadLogical(c, old(Left()), old(Room()), false, [])
          == Found(record, Left(), Room(), reports - old(reports))
    {
      var turn := Go(false, []);
      while turn.Go?
        invariant Valid() && reports >= old(reports)
        invariant ReadLogical(c, old(Left()), old(Room()), false, [])
               == if turn.Stop? then Found(turn.record, Left(), Room(), reports - old(reports))
                  else Reporting(ReadLogical(c, Left(), Room(), turn.inside, turn.scratch), reports - old(reports))
        decreases turn.Go?, |Left()|
      {
        var what := ReadPhysicalRecord();
        turn := Handle(what, turn.inside, turn.scratch);
      }
      record := turn.record;
    }
  }

  // ----- the masked CRC32C in particular -----

  /** A log written by the writer and cut off anywhere, under the checksum that the writer and the reader share. */
  lemma LogSurvivesCrash(records: seq<Bytes>, n: nat, k: nat)
    requires n <= |Log(Crc(), BLOCK, records)| && k <= |records|
    requires |Log(Crc(), BLOCK, records[..k])| <= n
    requires k < |records| ==> n < |Log(Crc(), BLOCK, records[..k + 1])|
    ensures ReadAll(Crc(), Log(Crc(), BLOCK, records)[..n], 0) == (records[..k], 0)
  {
    CrcIsGood();
    PrefixReads(Crc(), records, n, k);
  }
}
