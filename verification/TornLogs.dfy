/**
 * A log whose last record was torn by a crash, and that a writer goes on with (db/log_writer.cc, db/log_reader.cc,
 * the reuse of logs in db/db_impl.cc).
 */
module TornLogs {
  import opened Keys
  import opened Coding
  import opened LogChecksum
  import opened LogFormat
  import opened LogReading

  // ----- where the cut falls -----

  /**
   * The piece or trailer that a cut falls in, or starts at: where it begins, the room in its block from there, and
   * what the reader has gathered of the record until then.
   */
  datatype Stand = Stand(start: nat, room: nat, inside: bool, scratch: Bytes)

  function Later(n: nat, st: Stand): Stand {
    st.(start := n + st.start)
  }

  function CutAt(room: nat, data: Bytes, begin: bool, scratch: Bytes, n: nat): (st: Stand)
    requires room <= BLOCK
    ensures st.start <= n && st.room <= BLOCK
    decreases |data|, if room <= HEADER then 1 else 0, if room < HEADER then 1 else 0
  {
    if room < HEADER then
      if n < room then Stand(0, room, !begin, scratch) else Later(room, CutAt(BLOCK, data, begin, scratch, n - room))
    else if HEADER + |data| <= room || n < room then Stand(0, room, !begin, scratch)
    else
      var length := room - HEADER;
      Later(room, CutAt(BLOCK, data[length..], false, scratch + data[..length], n - room))
  }

  /** The cut leaves no piece incomplete: it falls between two pieces, or among the zeros that end a block. */
  predicate AtBoundary(st: Stand, n: nat) {
    n == st.start || st.room < HEADER
  }

  /** What the cut leaves of a piece or a trailer is the front of it. */
  ghost predicate Remains(c: Checksum, room: nat, u: Bytes) {
    if room < HEADER then |u| < room && u == Zeros(|u|)
    else exists kind: byte, payload: Bytes ::
      && HEADER + |payload| <= room <= BLOCK && kind != ZERO
      && |u| < |Piece(c, kind, payload)| && u <= Piece(c, kind, payload)
  }

  /** Reading comes to the place of the cut without a report, whatever was written behind it. */
  ghost predicate Comes(c: Checksum, t: Bytes, room: nat, begin: bool, scratch: Bytes, more: Bytes, st: Stand)
    requires room <= BLOCK
  {
    && st.start <= |t| && st.room <= BLOCK
    && Leads(c, t + more, room, !begin, scratch, t[st.start..] + more, st.room, st.inside, st.scratch)
    && (!st.inside ==> st.scratch == [])
    && Remains(c, st.room, t[st.start..])
  }

  /** The place and the room there go together, as everywhere in the log. */
  lemma {:induction false} CutRoom(room: nat, data: Bytes, begin: bool, scratch: Bytes, n: nat)
    requires room <= BLOCK
    ensures var st := CutAt(room, data, begin, scratch, n);
      (st.room + st.start) % BLOCK == room % BLOCK
    decreases |data|, if room <= HEADER then 1 else 0, if room < HEADER then 1 else 0
  {
    if room < HEADER {
      if room <= n {
        CutRoom(BLOCK, data, begin, scratch, n - room);
        var st := CutAt(BLOCK, data, begin, scratch, n - room);
        WholeBlocks(st.room + st.start, room);
      }
    } else if room < HEADER + |data| && room <= n {
      var length := room - HEADER;
      CutRoom(BLOCK, data[length..], false, scratch + data[..length], n - room);
      var st := CutAt(BLOCK, data[length..], false, scratch + data[..length], n - room);
      WholeBlocks(st.room + st.start, room);
    }
  }

  /** The cut is in the piece or trailer that it is said to be in. */
  lemma {:induction false} CutWithin(c: Checksum, room: nat, data: Bytes, begin: bool, scratch: Bytes, n: nat)
    requires Good(c) && room <= BLOCK && n < |Layout(c, room, data, begin)|
    ensures var st := CutAt(room, data, begin, scratch, n);
      n < st.start + st.room
    decreases |data|, if room <= HEADER then 1 else 0, if room < HEADER then 1 else 0
  {
    if room < HEADER {
      if room <= n {
        TrailerLength(c, room, data, begin);
        CutWithin(c, BLOCK, data, begin, scratch, n - room);
      }
    } else if HEADER + |data| <= room {
      LastLength(c, room, data, begin);
    } else if room <= n {
      var length := room - HEADER;
      FullLength(c, room, data, data[length..], begin);
      CutWithin(c, BLOCK, data[length..], false, scratch + data[..length], n - room);
    }
  }

  lemma TrailerLength(c: Checksum, room: nat, data: Bytes, begin: bool)
    requires room < HEADER
    ensures |Layout(c, room, data, begin)| == room + |Layout(c, BLOCK, data, begin)|
  {
    SwitchedLayout(c, room, data, begin);
  }

  lemma LastLength(c: Checksum, room: nat, data: Bytes, begin: bool)
    requires Good(c) && HEADER + |data| <= room <= BLOCK
    ensures |Layout(c, room, data, begin)| == HEADER + |data|
  {
    LastPiece(c, room, data, begin);
    PieceParts(c, KindOf(begin, true), data);
  }

  lemma FullLength(c: Checksum, room: nat, data: Bytes, rest: Bytes, begin: bool)
    requires Good(c) && HEADER <= room < HEADER + |data| && room <= BLOCK && rest == data[room - HEADER..]
    ensures |Layout(c, room, data, begin)| == room + |Layout(c, BLOCK, rest, false)|
  {
    FullPiece(c, room - HEADER, data, begin);
    PieceParts(c, KindOf(begin, false), data[..room - HEADER]);
  }

  ghost predicate Leads(c: Checksum, s: Bytes, room: nat, inside: bool, scratch: Bytes, s': Bytes, room': nat,
                        inside': bool, scratch': Bytes)
    requires room <= BLOCK && room' <= BLOCK
  {
    ReadLogical(c, s, room, inside, scratch) == ReadLogical(c, s', room', inside', scratch')
  }

  lemma ComesHere(c: Checksum, t: Bytes, room: nat, begin: bool, scratch: Bytes, more: Bytes)
    requires room <= BLOCK && (begin ==> scratch == []) && Remains(c, room, t)
    ensures Comes(c, t, room, begin, scratch, more, Stand(0, room, !begin, scratch))
  {
    assert t[0..] == t;
  }

  lemma ComesLater(c: Checksum, t: Bytes, room: nat, begin: bool, scratch: Bytes, more: Bytes, t': Bytes, begin': bool,
                   scratch': Bytes, st: Stand)
    requires room <= |t| && room <= BLOCK && t[room..] == t'
    requires Leads(c, t + more, room, !begin, scratch, t' + more, BLOCK, !begin', scratch')
    requires Comes(c, t', BLOCK, begin', scratch', more, st)
    ensures Comes(c, t, room, begin, scratch, more, Later(room, st))
  {
    var u := t'[st.start..];
    Dropped(t, room, t', st.start);
    LeadsOn(c, t + more, room, !begin, scratch, t' + more, BLOCK, !begin', scratch', u + more, st);
    ComesIs(c, t, room, begin, scratch, more, room + st.start, st, u);
  }

  lemma LeadsOn(c: Checksum, s: Bytes, room: nat, inside: bool, scratch: Bytes, s': Bytes, room': nat, inside': bool,
                scratch': Bytes, s'': Bytes, st: Stand)
    requires room <= BLOCK && room' <= BLOCK && st.room <= BLOCK
    requires Leads(c, s, room, inside, scratch, s', room', inside', scratch')
    requires Leads(c, s', room', inside', scratch', s'', st.room, st.inside, st.scratch)
    ensures Leads(c, s, room, inside, scratch, s'', st.room, st.inside, st.scratch)
  {
  }

  lemma ComesIs(c: Checksum, t: Bytes, room: nat, begin: bool, scratch: Bytes, more: Bytes, start: nat, st: Stand,
                u: Bytes)
    requires room <= BLOCK && start <= |t| && st.room <= BLOCK && u == t[start..]
    requires Leads(c, t + more, room, !begin, scratch, u + more, st.room, st.inside, st.scratch)
    requires (!st.inside ==> st.scratch == []) && Remains(c, st.room, u)
    ensures Comes(c, t, room, begin, scratch, more, st.(start := start))
  {
  }

  lemma Dropped(t: Bytes, room: nat, t': Bytes, start: nat)
    requires room <= |t| && t[room..] == t' && start <= |t'|
    ensures t[room + start..] == t'[start..]
  {
  }

  lemma Onward(t: Bytes, more: Bytes, n: nat)
    requires n <= |t|
    ensures (t + more)[n..] == t[n..] + more && (t + more)[..n] == t[..n]
  {
  }

  /** A first or middle piece that fills its block is read, and reading goes on with the next block. */
  lemma PieceTaken(c: Checksum, s: Bytes, room: nat, chunk: Bytes, begin: bool, scratch: Bytes)
    requires Good(c) && room == HEADER + |chunk| <= BLOCK && (begin ==> scratch == [])
    requires room <= |s| && s[..room] == Piece(c, KindOf(begin, false), chunk)
    ensures ReadLogical(c, s, room, !begin, scratch) == ReadLogical(c, s[room..], BLOCK, true, scratch + chunk)
  {
    WholePiece(c, s, room, KindOf(begin, false), chunk);
    StartOfBlock(c, s[room..], true, scratch + chunk);
    assert begin ==> scratch + chunk == chunk;
    TakesPiece(c, s, room, chunk, begin, scratch, s[room..]);
  }

  lemma StartOfBlock(c: Checksum, s: Bytes, inside: bool, scratch: Bytes)
    ensures ReadLogical(c, s, 0, inside, scratch) == ReadLogical(c, s, BLOCK, inside, scratch)
  {
    assert s[0..] == s;
    TrailerSkipped(c, s, 0, inside, scratch);
  }

  lemma TakesPiece(c: Checksum, s: Bytes, room: nat, chunk: Bytes, begin: bool, scratch: Bytes, rest: Bytes)
    requires room <= BLOCK && (begin ==> scratch == [] && scratch + chunk == chunk)
    requires ReadPhysical(c, s, room) == Found(Fragment(KindOf(begin, false), chunk), rest, 0, 0)
    ensures ReadLogical(c, s, room, !begin, scratch) == ReadLogical(c, rest, 0, true, scratch + chunk)
  {
  }

  /** The cut of a record that is laid out in some block. */
  lemma {:induction false} TornRead(c: Checksum, t: Bytes, room: nat, data: Bytes, begin: bool, scratch: Bytes,
                                    more: Bytes)
    requires Good(c) && room <= BLOCK && (begin ==> scratch == [])
    requires t <= Layout(c, room, data, begin) && |t| < |Layout(c, room, data, begin)|
    ensures Comes(c, t, room, begin, scratch, more, CutAt(room, data, begin, scratch, |t|))
    decreases |data|, if room <= HEADER then 1 else 0, if room < HEADER then 1 else 0
  {
    if room < HEADER {
      TrailerFront(c, t, room, data, begin);
      if room <= |t| {
        TornRead(c, t[room..], BLOCK, data, begin, scratch, more);
      }
      TornTrailer(c, t, room, data, begin, scratch, more);
    } else if HEADER + |data| <= room {
      TornLast(c, t, room, data, begin, scratch, more);
    } else {
      var chunk, rest := data[..room - HEADER], data[room - HEADER..];
      PieceFront(c, t, room, data, chunk, rest, begin);
      if room <= |t| {
        TornRead(c, t[room..], BLOCK, rest, false, scratch + chunk, more);
      }
      TornPiece(c, t, room, data, chunk, rest, begin, scratch, more);
    }
  }

  lemma TrailerFront(c: Checksum, t: Bytes, room: nat, data: Bytes, begin: bool)
    requires room < HEADER && t <= Layout(c, room, data, begin) && |t| < |Layout(c, room, data, begin)|
    ensures if room <= |t| then
        t[room..] <= Layout(c, BLOCK, data, begin) && |t[room..]| < |Layout(c, BLOCK, data, begin)|
      else t <= Zeros(room)
  {
    SwitchedLayout(c, room, data, begin);
    SplitCut(t, Zeros(room), Layout(c, BLOCK, data, begin));
  }

  lemma PieceFront(c: Checksum, t: Bytes, room: nat, data: Bytes, chunk: Bytes, rest: Bytes, begin: bool)
    requires Good(c) && HEADER <= room < HEADER + |data| && room <= BLOCK
    requires chunk == data[..room - HEADER] && rest == data[room - HEADER..]
    requires t <= Layout(c, room, data, begin) && |t| < |Layout(c, room, data, begin)|
    ensures if room <= |t| then
        && t[..room] == Piece(c, KindOf(begin, false), chunk)
        && t[room..] <= Layout(c, BLOCK, rest, false) && |t[room..]| < |Layout(c, BLOCK, rest, false)|
      else t <= Piece(c, KindOf(begin, false), chunk)
  {
    FullPiece(c, room - HEADER, data, begin);
    PieceParts(c, KindOf(begin, false), chunk);
    SplitCut(t, Piece(c, KindOf(begin, false), chunk), Layout(c, BLOCK, rest, false));
  }

  lemma TornLast(c: Checksum, t: Bytes, room: nat, data: Bytes, begin: bool, scratch: Bytes, more: Bytes)
    requires HEADER + |data| <= room <= BLOCK && (begin ==> scratch == [])
    requires t <= Layout(c, room, data, begin) && |t| < |Layout(c, room, data, begin)|
    ensures Comes(c, t, room, begin, scratch, more, CutAt(room, data, begin, scratch, |t|))
  {
    LastPiece(c, room, data, begin);
    PieceRemains(c, room, t, KindOf(begin, true), data);
    ComesHere(c, t, room, begin, scratch, more);
  }

  lemma TornTrailer(c: Checksum, t: Bytes, room: nat, data: Bytes, begin: bool, scratch: Bytes, more: Bytes)
    requires room < HEADER && (begin ==> scratch == [])
    requires if room <= |t| then
        Comes(c, t[room..], BLOCK, begin, scratch, more, CutAt(BLOCK, data, begin, scratch, |t| - room))
      else t <= Zeros(room)
    ensures Comes(c, t, room, begin, scratch, more, CutAt(room, data, begin, scratch, |t|))
  {
    if |t| < room {
      ComesHere(c, t, room, begin, scratch, more);
    } else {
      Onward(t, more, room);
      TrailerSkipped(c, t + more, room, !begin, scratch);
      ComesLater(c, t, room, begin, scratch, more, t[room..], begin, scratch,
          CutAt(BLOCK, data, begin, scratch, |t| - room));
    }
  }

  lemma TornPiece(c: Checksum, t: Bytes, room: nat, data: Bytes, chunk: Bytes, rest: Bytes, begin: bool, scratch: Bytes,
                  more: Bytes)
    requires Good(c) && HEADER <= room < HEADER + |data| && room <= BLOCK && (begin ==> scratch == [])
    requires chunk == data[..room - HEADER] && rest == data[room - HEADER..]
    requires if room <= |t| then
        && t[..room] == Piece(c, KindOf(begin, false), chunk)
        && Comes(c, t[room..], BLOCK, false, scratch + chunk, more,
                 CutAt(BLOCK, rest, false, scratch + chunk, |t| - room))
      else t <= Piece(c, KindOf(begin, false), chunk)
    ensures Comes(c, t, room, begin, scratch, more, CutAt(room, data, begin, scratch, |t|))
  {
    if |t| < room {
      PieceParts(c, KindOf(begin, false), chunk);
      PieceRemains(c, room, t, KindOf(begin, false), chunk);
      ComesHere(c, t, room, begin, scratch, more);
    } else {
      BehindPiece(c, t, room, chunk, begin, scratch, more, t[room..], scratch + chunk,
          CutAt(BLOCK, rest, false, scratch + chunk, |t| - room));
    }
  }

  lemma BehindPiece(c: Checksum, t: Bytes, room: nat, chunk: Bytes, begin: bool, scratch: Bytes, more: Bytes, t': Bytes,
                    scratch': Bytes, st: Stand)
    requires Good(c) && room == HEADER + |chunk| <= BLOCK && (begin ==> scratch == [])
    requires room <= |t| && t[..room] == Piece(c, KindOf(begin, false), chunk)
    requires t' == t[room..] && scratch' == scratch + chunk && Comes(c, t', BLOCK, false, scratch', more, st)
    ensures Comes(c, t, room, begin, scratch, more, Later(room, st))
  {
    Onward(t, more, room);
    PieceTaken(c, t + more, room, chunk, begin, scratch);
    ComesLater(c, t, room, begin, scratch, more, t', false, scratch', st);
  }

  lemma PieceRemains(c: Checksum, room: nat, t: Bytes, kind: byte, payload: Bytes)
    requires HEADER + |payload| <= room <= BLOCK && kind != ZERO
    requires t <= Piece(c, kind, payload) && |t| < |Piece(c, kind, payload)|
    ensures Remains(c, room, t)
  {
  }

  // ----- whole records, and what is behind them -----

  /** Whatever follows the records of a log, they are read first, without a report. */
  lemma {:induction false} LogThen(c: Checksum, room: nat, records: seq<Bytes>, more: Bytes)
    requires Good(c) && room <= BLOCK
    ensures var r := ReadAll(c, more, RoomAfterAll(room, records));
      ReadAll(c, Log(c, room, records) + more, room) == (records + r.0, r.1)
    decreases |records|
  {
    if records == [] {
      assert [] + more == more;
      assert records + ReadAll(c, more, room).0 == ReadAll(c, more, room).0;
    } else {
      var next := RoomAfter(room, records[0]);
      var first, rest := Layout(c, room, records[0], true), Log(c, next, records[1..]);
      Regroup(first, rest, more);
      LogThen(c, next, records[1..], more);
      RecordThen(c, room, records[0], rest + more);
      HeadTail(records, ReadAll(c, more, RoomAfterAll(room, records)).0);
    }
  }

  lemma HeadTail(records: seq<Bytes>, more: seq<Bytes>)
    requires records != []
    ensures [records[0]] + (records[1..] + more) == records + more
  {
  }

  lemma RecordThen(c: Checksum, room: nat, record: Bytes, more: Bytes)
    requires Good(c) && room <= BLOCK
    ensures var r := ReadAll(c, more, RoomAfter(room, record));
      ReadAll(c, Layout(c, room, record, true) + more, room) == ([record] + r.0, r.1)
  {
    var s := Layout(c, room, record, true) + more;
    LayoutRead(c, s, room, record, true, [], more);
    assert [] + record == record;
    assert s[|Layout(c, room, record, true)|..] == more;
  }

  // ----- the writer goes on -----

  /** A log of whole records and a torn one. */
  function TornLog(c: Checksum, records: seq<Bytes>, torn: Bytes, n: nat): Bytes
    requires n <= |Layout(c, RoomAfterAll(BLOCK, records), torn, true)|
  {
    Log(c, BLOCK, records) + Layout(c, RoomAfterAll(BLOCK, records), torn, true)[..n]
  }

  /** The file after `more` has been appended to the torn log: first its whole records, then what the cut has left. */
  lemma TornThen(c: Checksum, records: seq<Bytes>, torn: Bytes, n: nat, more: Bytes)
    requires Good(c) && n < |Layout(c, RoomAfterAll(BLOCK, records), torn, true)|
    ensures var room := RoomAfterAll(BLOCK, records);
      var t := Layout(c, room, torn, true)[..n];
      var r := ReadAll(c, t + more, room);
      && ReadAll(c, TornLog(c, records, torn, n) + more, 0) == (records + r.0, r.1)
      && Comes(c, t, room, true, [], more, CutAt(room, torn, true, [], n))
  {
    var room := RoomAfterAll(BLOCK, records);
    var t := Layout(c, room, torn, true)[..n];
    WholeThen(c, records, t, more);
    TornRead(c, t, room, torn, true, [], more);
  }

  lemma WholeThen(c: Checksum, records: seq<Bytes>, t: Bytes, more: Bytes)
    requires Good(c)
    ensures var r := ReadAll(c, t + more, RoomAfterAll(BLOCK, records));
      ReadAll(c, Log(c, BLOCK, records) + t + more, 0) == (records + r.0, r.1)
  {
    Regroup(Log(c, BLOCK, records), t, more);
    StartOfFile(c, Log(c, BLOCK, records) + t + more);
    LogThen(c, BLOCK, records, t + more);
  }

  lemma SameReading(c: Checksum, s: Bytes, room: nat, s': Bytes, room': nat, extra: nat)
    requires room <= BLOCK && room' <= BLOCK
    requires ReadLogical(c, s, room, false, []) == Reporting(ReadLogical(c, s', room', false, []), extra)
    ensures ReadAll(c, s, room) == (ReadAll(c, s', room').0, extra + ReadAll(c, s', room').1)
  {
    ReadingIs(c, s, room, ReadLogical(c, s, room, false, []));
    ReadingIs(c, s', room', ReadLogical(c, s', room', false, []));
  }

  lemma ReadingIs(c: Checksum, s: Bytes, room: nat, first: Found<Option<Bytes>>)
    requires room <= BLOCK && first == ReadLogical(c, s, room, false, [])
    ensures ReadAll(c, s, room)
         == if first.what.None? then ([], first.reports)
            else ([first.what.value] + ReadAll(c, first.rest, first.room).0,
                  first.reports + ReadAll(c, first.rest, first.room).1)
  {
  }

  lemma NothingLeft(c: Checksum, room: nat)
    requires room <= BLOCK
    ensures ReadAll(c, [], room) == ([], 0)
  {
    if room == 0 {
      StartOfBlock(c, [], false, []);
    }
  }

  /** Outside a record, or after a first piece without its end, a record that starts is read; the end is missed. */
  lemma FreshStart(c: Checksum, room: nat, record: Bytes, more: Bytes, inside: bool, scratch: Bytes)
    requires Good(c) && room <= BLOCK
    ensures var s := Layout(c, room, record, true) + more;
      ReadLogical(c, s, room, inside, scratch)
      == Reporting(ReadLogical(c, s, room, false, []), One(inside && scratch != []))
  {
    var s := Layout(c, room, record, true) + more;
    if room < HEADER {
      SwitchedLayout(c, room, record, true);
      Regroup(Zeros(room), Layout(c, BLOCK, record, true), more);
      assert s[room..] == Layout(c, BLOCK, record, true) + more;
      TrailerSkipped(c, s, room, inside, scratch);
      TrailerSkipped(c, s, room, false, []);
      FreshBlock(c, BLOCK, record, more, inside, scratch);
    } else {
      FreshBlock(c, room, record, more, inside, scratch);
    }
  }

  lemma FreshBlock(c: Checksum, room: nat, record: Bytes, more: Bytes, inside: bool, scratch: Bytes)
    requires Good(c) && HEADER <= room <= BLOCK
    ensures var s := Layout(c, room, record, true) + more;
      ReadLogical(c, s, room, inside, scratch)
      == Reporting(ReadLogical(c, s, room, false, []), One(inside && scratch != []))
  {
    var s := Layout(c, room, record, true) + more;
    var last := HEADER + |record| <= room;
    var chunk := if last then record else record[..room - HEADER];
    var p := Piece(c, KindOf(true, last), chunk);
    if last {
      LastPiece(c, room, record, true);
    } else {
      FullPiece(c, room - HEADER, record, true);
      Regroup(p, Layout(c, BLOCK, record[room - HEADER..], false), more);
    }
    PieceParts(c, KindOf(true, last), chunk);
    assert s[..|p|] == p;
    WholePiece(c, s, room, KindOf(true, last), chunk);
    Starts(c, s, room, KindOf(true, last), chunk, s[|p|..], room - |p|, inside, scratch);
  }

  lemma Starts(c: Checksum, s: Bytes, room: nat, kind: byte, chunk: Bytes, rest: Bytes, left: nat, inside: bool,
               scratch: Bytes)
    requires room <= BLOCK && left <= BLOCK && (kind == FULL || kind == FIRST)
    requires ReadPhysical(c, s, room) == Found(Fragment(kind, chunk), rest, left, 0)
    ensures ReadLogical(c, s, room, inside, scratch)
         == Reporting(ReadLogical(c, s, room, false, []), One(inside && scratch != []))
  {
  }

  /** What stands before the cut and what the writer adds are together a log from there. */
  lemma GoesOn(c: Checksum, st: Stand, u: Bytes, k: nat, records: seq<Bytes>)
    requires records != [] && 0 < st.room <= BLOCK && |u| < st.room && k == st.room - |u|
    requires u == [] || (st.room < HEADER && u == Zeros(|u|))
    ensures u + Log(c, k, records) == Log(c, st.room, records)
  {
    if u == [] {
      assert u + Log(c, k, records) == Log(c, k, records);
    } else {
      var rest := Log(c, RoomAfter(BLOCK, records[0]), records[1..]);
      SwitchedLayout(c, k, records[0], true);
      SwitchedLayout(c, st.room, records[0], true);
      assert u + Zeros(k) == Zeros(st.room);
      Regroup(u, Zeros(k), Layout(c, BLOCK, records[0], true));
      Regroup(u, Layout(c, k, records[0], true), rest);
    }
  }

  lemma RoomLeft(room: nat, length: nat, left: nat, start: nat, n: nat)
    requires (room + length) % BLOCK == 0 && (left + start) % BLOCK == room % BLOCK
    requires start <= n < start + left && left <= BLOCK
    ensures BLOCK - (length + n) % BLOCK == left - (n - start)
  {
    assert (left + start + length) % BLOCK == 0;
    var r := left - (n - start);
    assert (r + (length + n)) % BLOCK == 0;
    RoomFromLength(r, length + n);
  }

  /**
   * If the crash tore the last record between two of its pieces, a writer that goes on with the log loses nothing:
   * all that was whole is read, and all that is written from then on. The torn record is reported if any byte of it
   * is there.
   */
  lemma {:induction false} BoundaryLosesNothing(c: Checksum, records: seq<Bytes>, torn: Bytes, n: nat, more: seq<Bytes>)
    requires Good(c) && n < |Layout(c, RoomAfterAll(BLOCK, records), torn, true)| && more != []
    requires AtBoundary(CutAt(RoomAfterAll(BLOCK, records), torn, true, [], n), n)
    ensures var st := CutAt(RoomAfterAll(BLOCK, records), torn, true, [], n);
      var file := TornLog(c, records, torn, n);
      ReadAll(c, file + Log(c, BLOCK - |file| % BLOCK, more), 0)
      == (records + more, One(st.inside && st.scratch != []))
  {
    var t := Layout(c, RoomAfterAll(BLOCK, records), torn, true)[..n];
    TornLength(c, records, torn, n, t);
    TornThenMore(c, records, torn, t, BLOCK - |TornLog(c, records, torn, n)| % BLOCK, more);
  }

  lemma {:induction false} TornThenMore(c: Checksum, records: seq<Bytes>, torn: Bytes, t: Bytes, k: nat,
                                        more: seq<Bytes>)
    requires Good(c) && more != [] && k == BLOCK - (|Log(c, BLOCK, records)| + |t|) % BLOCK
    requires |t| < |Layout(c, RoomAfterAll(BLOCK, records), torn, true)|
    requires t == Layout(c, RoomAfterAll(BLOCK, records), torn, true)[..|t|]
    requires AtBoundary(CutAt(RoomAfterAll(BLOCK, records), torn, true, [], |t|), |t|)
    ensures var st := CutAt(RoomAfterAll(BLOCK, records), torn, true, [], |t|);
      ReadAll(c, Log(c, BLOCK, records) + t + Log(c, k, more), 0)
      == (records + more, One(st.inside && st.scratch != []))
  {
    var room, added := RoomAfterAll(BLOCK, records), Log(c, k, more);
    RoomBehind(c, records);
    TornBoundary(c, torn, t, room, |Log(c, BLOCK, records)|, added, CutAt(room, torn, true, [], |t|), k, more);
    WholeThen(c, records, t, added);
  }

  lemma {:induction false} TornBoundary(c: Checksum, torn: Bytes, t: Bytes, room: nat, length: nat, added: Bytes,
                                        st: Stand, k: nat, more: seq<Bytes>)
    requires Good(c) && room <= BLOCK && (room + length) % BLOCK == 0 && more != []
    requires |t| < |Layout(c, room, torn, true)| && t == Layout(c, room, torn, true)[..|t|]
    requires k == BLOCK - (length + |t|) % BLOCK && added == Log(c, k, more)
    requires st == CutAt(room, torn, true, [], |t|) && AtBoundary(st, |t|)
    ensures ReadAll(c, t + added, room) == (more, One(st.inside && st.scratch != []))
  {
    TornRead(c, t, room, torn, true, [], added);
    CutRoom(room, torn, true, [], |t|);
    BoundaryReads(c, t, room, length, added, st, k, more);
  }

  lemma RoomBehind(c: Checksum, records: seq<Bytes>)
    requires Good(c)
    ensures (RoomAfterAll(BLOCK, records) + |Log(c, BLOCK, records)|) % BLOCK == 0
  {
    RoomAfterLog(c, BLOCK, records);
  }

  lemma TornLength(c: Checksum, records: seq<Bytes>, torn: Bytes, n: nat, t: Bytes)
    requires n <= |Layout(c, RoomAfterAll(BLOCK, records), torn, true)|
    requires t == Layout(c, RoomAfterAll(BLOCK, records), torn, true)[..n]
    ensures |t| == n && |TornLog(c, records, torn, n)| == |Log(c, BLOCK, records)| + |t|
  {
  }

  lemma BoundaryReads(c: Checksum, t: Bytes, room: nat, length: nat, added: Bytes, st: Stand, k: nat, more: seq<Bytes>)
    requires Good(c) && room <= BLOCK && (room + length) % BLOCK == 0 && more != []
    requires k == BLOCK - (length + |t|) % BLOCK && added == Log(c, k, more)
    requires Comes(c, t, room, true, [], added, st) && AtBoundary(st, |t|)
    requires (st.room + st.start) % BLOCK == room % BLOCK
    ensures ReadAll(c, t + added, room) == (more, One(st.inside && st.scratch != []))
  {
    BoundaryGoesOn(c, t, room, length, added, st, k, more);
    ReadsOn(c, t + added, room, st, more);
  }

  lemma BoundaryGoesOn(c: Checksum, t: Bytes, room: nat, length: nat, added: Bytes, st: Stand, k: nat, more: seq<Bytes>)
    requires room <= BLOCK && (room + length) % BLOCK == 0 && more != [] && k == BLOCK - (length + |t|) % BLOCK
    requires added == Log(c, k, more) && Comes(c, t, room, true, [], added, st) && AtBoundary(st, |t|)
    requires (st.room + st.start) % BLOCK == room % BLOCK
    ensures Leads(c, t + added, room, false, [], Log(c, st.room, more), st.room, st.inside, st.scratch)
  {
    var u := t[st.start..];
    assert Remains(c, st.room, u);
    RoomLeft(room, length, st.room, st.start, |t|);
    GoesOn(c, st, u, k, more);
  }

  lemma ReadsOn(c: Checksum, s: Bytes, room: nat, st: Stand, more: seq<Bytes>)
    requires Good(c) && room <= BLOCK && st.room <= BLOCK && more != []
    requires Leads(c, s, room, false, [], Log(c, st.room, more), st.room, st.inside, st.scratch)
    ensures ReadAll(c, s, room) == (more, One(st.inside && st.scratch != []))
  {
    FreshLog(c, st.room, more, st.inside, st.scratch);
    SameReading(c, s, room, Log(c, st.room, more), st.room, One(st.inside && st.scratch != []));
    WholeLogRead(c, st.room, more);
  }

  lemma FreshLog(c: Checksum, room: nat, records: seq<Bytes>, inside: bool, scratch: Bytes)
    requires Good(c) && room <= BLOCK && records != []
    ensures ReadLogical(c, Log(c, room, records), room, inside, scratch)
         == Reporting(ReadLogical(c, Log(c, room, records), room, false, []), One(inside && scratch != []))
  {
    FreshStart(c, room, records[0], Log(c, RoomAfter(room, records[0]), records[1..]), inside, scratch);
  }

  lemma WholeLogRead(c: Checksum, room: nat, records: seq<Bytes>)
    requires Good(c) && room <= BLOCK
    ensures ReadAll(c, Log(c, room, records), room) == (records, 0)
  {
    LogThen(c, room, records, []);
    NothingLeft(c, RoomAfterAll(room, records));
    assert Log(c, room, records) + [] == Log(c, room, records) && records + [] == records;
  }

  // ----- a cut inside a piece -----

  /** What stands at the front is no piece: too long for what there is, empty, or not what its checksum says. */
  ghost predicate Refused(c: Checksum, s: Bytes, room: nat) {
    var buffer := if |s| < room then |s| else room;
    buffer < HEADER || HEADER + LengthAt(s) > buffer || (s[6] == ZERO && LengthAt(s) == 0)
    || !c.accept(s[..4], s[6..HEADER + LengthAt(s)])
  }

  /** Then nothing up to the end of the block is read. */
  lemma RefusedRead(c: Checksum, s: Bytes, room: nat, inside: bool, scratch: Bytes)
    requires HEADER <= room <= BLOCK && Refused(c, s, room) && (!inside ==> scratch == [])
    ensures var r := ReadLogical(c, s, room, inside, scratch);
      if |s| < room then r.what == None
      else exists m :: r == Reporting(ReadLogical(c, s[room..], BLOCK, false, []), m)
  {
    var Found(what, rest, left, m) := ReadPhysical(c, s, room);
    if |s| >= room {
      StartOfBlock(c, s[room..], false, []);
      var r := ReadLogical(c, s, room, inside, scratch);
      assert r == Reporting(ReadLogical(c, s[room..], BLOCK, false, []), m + One(inside));
    }
  }

  /**
   * If it tore the record inside a piece, what is written from then on is taken for the rest of that piece. As long
   * as the outcome is no piece, nothing up to the end of the block is read, old or new.
   */
  lemma TornPieceHides(c: Checksum, records: seq<Bytes>, torn: Bytes, n: nat, more: Bytes, room: nat, st: Stand,
                       s: Bytes)
    requires Good(c) && room == RoomAfterAll(BLOCK, records) && n < |Layout(c, room, torn, true)|
    requires st == CutAt(room, torn, true, [], n) && !AtBoundary(st, n)
    requires s == Layout(c, room, torn, true)[st.start..n] + more && Refused(c, s, st.room)
    ensures ReadAll(c, TornLog(c, records, torn, n) + more, 0).0
         == records + if |s| < st.room then [] else ReadAll(c, s[st.room..], BLOCK).0
  {
    var layout := Layout(c, room, torn, true);
    TornThen(c, records, torn, n, more);
    assert layout[..n][st.start..] == layout[st.start..n];
    RefusedRead(c, s, st.room, st.inside, st.scratch);
    HiddenReading(c, layout[..n] + more, room, s, st);
  }

  lemma HiddenReading(c: Checksum, whole: Bytes, room: nat, s: Bytes, st: Stand)
    requires room <= BLOCK && HEADER <= st.room <= BLOCK
    requires Leads(c, whole, room, false, [], s, st.room, st.inside, st.scratch)
    requires var r := ReadLogical(c, s, st.room, st.inside, st.scratch);
      if |s| < st.room then r.what == None
      else exists m :: r == Reporting(ReadLogical(c, s[st.room..], BLOCK, false, []), m)
    ensures ReadAll(c, whole, room).0 == if |s| < st.room then [] else ReadAll(c, s[st.room..], BLOCK).0
  {
    if |s| >= st.room {
      var m :| ReadLogical(c, s, st.room, st.inside, st.scratch)
            == Reporting(ReadLogical(c, s[st.room..], BLOCK, false, []), m);
      SameReading(c, whole, room, s[st.room..], BLOCK, m);
    }
  }

  // ----- what is read again behind it -----

  /** The records of a log that begin behind its first `room` bytes, which end a block. */
  function Behind(room: nat, more: seq<Bytes>): seq<Bytes>
    decreases |more|
  {
    if more == [] || room < HEADER then more
    else if HEADER + |more[0]| <= room then Behind(room - HEADER - |more[0]|, more[1..])
    else more[1..]
  }

  /** The pieces of what is left of a record at the start of a block. */
  function Pieces(data: Bytes): nat
    decreases |data|
  {
    if HEADER + |data| <= BLOCK then 1 else 1 + Pieces(data[BLOCK - HEADER..])
  }

  lemma OrphanTaken(c: Checksum, s: Bytes, room: nat, kind: byte, data: Bytes, rest: Bytes, left: nat)
    requires room <= BLOCK && left <= BLOCK && (kind == MIDDLE || kind == LAST)
    requires ReadPhysical(c, s, room) == Found(Fragment(kind, data), rest, left, 0)
    ensures ReadLogical(c, s, room, false, []) == Reporting(ReadLogical(c, rest, left, false, []), 1)
  {
  }

  /** Pieces without the first of their record are skipped, each with a report. */
  lemma {:induction false} OrphansSkipped(c: Checksum, data: Bytes, more: Bytes)
    requires Good(c)
    ensures ReadLogical(c, Layout(c, BLOCK, data, false) + more, BLOCK, false, [])
         == Reporting(ReadLogical(c, more, RoomAfter(BLOCK, data), false, []), Pieces(data))
    decreases |data|
  {
    var s := Layout(c, BLOCK, data, false) + more;
    if HEADER + |data| <= BLOCK {
      LastPiece(c, BLOCK, data, false);
      PieceParts(c, LAST, data);
      assert s[..HEADER + |data|] == Piece(c, LAST, data) && s[HEADER + |data|..] == more;
      WholePiece(c, s, BLOCK, LAST, data);
      OrphanTaken(c, s, BLOCK, LAST, data, more, RoomAfter(BLOCK, data));
    } else {
      var chunk, rest := data[..BLOCK - HEADER], data[BLOCK - HEADER..];
      var next := Layout(c, BLOCK, rest, false) + more;
      FullPiece(c, BLOCK - HEADER, data, false);
      PieceParts(c, MIDDLE, chunk);
      Regroup(Piece(c, MIDDLE, chunk), Layout(c, BLOCK, rest, false), more);
      assert s[..BLOCK] == Piece(c, MIDDLE, chunk) && s[BLOCK..] == next;
      WholePiece(c, s, BLOCK, MIDDLE, chunk);
      OrphanTaken(c, s, BLOCK, MIDDLE, chunk, next, 0);
      StartOfBlock(c, next, false, []);
      OrphansSkipped(c, rest, more);
    }
  }

  lemma OrphansRead(c: Checksum, data: Bytes, records: seq<Bytes>)
    requires Good(c)
    ensures ReadAll(c, Layout(c, BLOCK, data, false) + Log(c, RoomAfter(BLOCK, data), records), BLOCK).0 == records
  {
    var log := Log(c, RoomAfter(BLOCK, data), records);
    OrphansSkipped(c, data, log);
    SameReading(c, Layout(c, BLOCK, data, false) + log, BLOCK, log, RoomAfter(BLOCK, data), Pieces(data));
    WholeLogRead(c, RoomAfter(BLOCK, data), records);
  }

  lemma {:induction false} BehindRead(c: Checksum, room: nat, more: seq<Bytes>)
    requires Good(c) && room <= BLOCK && room <= |Log(c, room, more)|
    ensures ReadAll(c, Log(c, room, more)[room..], BLOCK).0 == Behind(room, more)
    decreases |more|
  {
    var log := Log(c, room, more);
    if more == [] {
      assert log[room..] == [];
      NothingLeft(c, BLOCK);
    } else if room < HEADER {
      TrailerBehind(c, room, more);
      WholeLogRead(c, BLOCK, more);
    } else if HEADER + |more[0]| <= room {
      LastBehind(c, room, more);
      BehindRead(c, room - HEADER - |more[0]|, more[1..]);
    } else {
      var rest := more[0][room - HEADER..];
      FirstBehind(c, room, more);
      OrphansRead(c, rest, more[1..]);
    }
  }

  lemma TrailerBehind(c: Checksum, room: nat, more: seq<Bytes>)
    requires room < HEADER && more != []
    ensures room <= |Log(c, room, more)| && Log(c, room, more)[room..] == Log(c, BLOCK, more)
  {
    var rest := Log(c, RoomAfter(BLOCK, more[0]), more[1..]);
    SwitchedLayout(c, room, more[0], true);
    Regroup(Zeros(room), Layout(c, BLOCK, more[0], true), rest);
  }

  lemma LastBehind(c: Checksum, room: nat, more: seq<Bytes>)
    requires Good(c) && more != [] && HEADER + |more[0]| <= room <= BLOCK
    ensures var left := room - HEADER - |more[0]|;
      var rest := Log(c, left, more[1..]);
      && |Log(c, room, more)| == room - left + |rest|
      && (room <= |Log(c, room, more)| ==> Log(c, room, more)[room..] == rest[left..])
  {
    LastPiece(c, room, more[0], true);
    PieceParts(c, KindOf(true, true), more[0]);
  }

  lemma FirstBehind(c: Checksum, room: nat, more: seq<Bytes>)
    requires Good(c) && more != [] && HEADER <= room < HEADER + |more[0]| && room <= BLOCK
    ensures var rest := more[0][room - HEADER..];
      && room <= |Log(c, room, more)|
      && Log(c, room, more)[room..] == Layout(c, BLOCK, rest, false) + Log(c, RoomAfter(BLOCK, rest), more[1..])
  {
    var rest, p := more[0][room - HEADER..], Piece(c, KindOf(true, false), more[0][..room - HEADER]);
    FullPiece(c, room - HEADER, more[0], true);
    PieceParts(c, KindOf(true, false), more[0][..room - HEADER]);
    Regroup(p, Layout(c, BLOCK, rest, false), Log(c, RoomAfter(BLOCK, rest), more[1..]));
  }

  lemma {:induction false} NothingBehind(c: Checksum, room: nat, more: seq<Bytes>)
    requires Good(c) && room <= BLOCK && |Log(c, room, more)| < room
    ensures Behind(room, more) == []
    decreases |more|
  {
    if more != [] {
      if room < HEADER {
        TrailerBehind(c, room, more);
      } else if HEADER + |more[0]| <= room {
        LastBehind(c, room, more);
        NothingBehind(c, room - HEADER - |more[0]|, more[1..]);
      } else {
        FirstBehind(c, room, more);
      }
    }
  }

  /**
   * A writer that goes on with a log torn inside a piece loses just what it writes of records that begin before the
   * end of that block, as long as the outcome is no piece: all that begin behind it are read, and nothing else.
   */
  lemma TornPieceThenLog(c: Checksum, records: seq<Bytes>, torn: Bytes, n: nat, more: seq<Bytes>, room: nat, st: Stand,
                         k: nat)
    requires Good(c) && room == RoomAfterAll(BLOCK, records) && n < |Layout(c, room, torn, true)|
    requires st == CutAt(room, torn, true, [], n) && k == BLOCK - |TornLog(c, records, torn, n)| % BLOCK
    requires !AtBoundary(st, n) && Refused(c, Layout(c, room, torn, true)[st.start..n] + Log(c, k, more), st.room)
    ensures ReadAll(c, TornLog(c, records, torn, n) + Log(c, k, more), 0).0 == records + Behind(k, more)
  {
    var u := Layout(c, room, torn, true)[st.start..n];
    TornPieceRoom(c, records, torn, n, k, room, st);
    RestOfBlock(c, u, st.room, k, more, u + Log(c, k, more));
    TornPieceHides(c, records, torn, n, Log(c, k, more), room, st, u + Log(c, k, more));
  }

  lemma TornPieceRoom(c: Checksum, records: seq<Bytes>, torn: Bytes, n: nat, k: nat, room: nat, st: Stand)
    requires Good(c) && room == RoomAfterAll(BLOCK, records) && n < |Layout(c, room, torn, true)|
    requires k == BLOCK - |TornLog(c, records, torn, n)| % BLOCK && st == CutAt(room, torn, true, [], n)
    ensures st.start <= n && k == st.room - (n - st.start)
  {
    var t := Layout(c, room, torn, true)[..n];
    CutRoom(room, torn, true, [], n);
    CutWithin(c, room, torn, true, [], n);
    RoomBehind(c, records);
    TornLength(c, records, torn, n, t);
    RoomLeft(room, |Log(c, BLOCK, records)|, st.room, st.start, n);
  }

  lemma RestOfBlock(c: Checksum, u: Bytes, room: nat, k: nat, more: seq<Bytes>, s: Bytes)
    requires Good(c) && k <= BLOCK && room == |u| + k && s == u + Log(c, k, more)
    ensures Behind(k, more) == if |s| < room then [] else ReadAll(c, s[room..], BLOCK).0
  {
    var log := Log(c, k, more);
    if |log| < k {
      NothingBehind(c, k, more);
    } else {
      BehindRead(c, k, more);
      assert s[room..] == log[k..];
    }
  }

  /**
   * So a log whose last record was torn behind its header loses what is appended, without any report, until the
   * record's length is made up: the reader takes it all for the record's payload, cut short.
   */
  lemma TakenForTheRest(c: Checksum, records: seq<Bytes>, torn: Bytes, n: nat, more: Bytes)
    requires Good(c) && HEADER + |torn| <= RoomAfterAll(BLOCK, records)
    requires HEADER <= n && n + |more| < HEADER + |torn|
    ensures n < |Layout(c, RoomAfterAll(BLOCK, records), torn, true)|
    ensures ReadAll(c, TornLog(c, records, torn, n) + more, 0) == (records, 0)
  {
    var room := RoomAfterAll(BLOCK, records);
    var p := Piece(c, KindOf(true, true), torn);
    LastPiece(c, room, torn, true);
    PieceParts(c, KindOf(true, true), torn);
    FrontLength(p, n, more);
    CutShort(c, p[..n] + more, room);
    TornThen(c, records, torn, n, more);
    assert records + [] == records;
  }

  lemma FrontLength(p: Bytes, n: nat, more: Bytes)
    requires HEADER <= n <= |p|
    ensures LengthAt(p[..n] + more) == LengthAt(p)
  {
    var s := p[..n] + more;
    assert s[4] == p[4] && s[5] == p[5];
  }

  lemma CutShort(c: Checksum, s: Bytes, room: nat)
    requires HEADER <= |s| < HEADER + LengthAt(s) <= room <= BLOCK
    ensures ReadAll(c, s, room) == ([], 0)
  {
    assert ReadPhysical(c, s, room) == Found(Eof, [], room - |s|, 0);
    assert ReadLogical(c, s, room, false, []) == Found(None, [], room - |s|, 0);
  }
}
