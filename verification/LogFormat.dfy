/**
 * The layout of the log: records cut into checksummed pieces that never cross a block (db/log_format.h,
 * db/log_writer.cc).
 */
module LogFormat {
  import opened Keys
  import opened Coding
  import opened LogChecksum

  const BLOCK: nat := 32768
  const HEADER: nat := 7

  const ZERO: byte := 0
  const FULL: byte := 1
  const FIRST: byte := 2
  const MIDDLE: byte := 3
  const LAST: byte := 4

  function Header(c: Checksum, kind: byte, payload: Bytes): (r: Bytes)
    requires |payload| <= 0xffff
    ensures |r| == |c.seal([kind] + payload)| + 3
  {
    c.seal([kind] + payload) + [|payload| % 256, |payload| / 256, kind]
  }

  /** Checksum, length, kind, payload. */
  function Piece(c: Checksum, kind: byte, payload: Bytes): (r: Bytes)
    requires |payload| <= 0xffff
    ensures |r| == |c.seal([kind] + payload)| + 3 + |payload|
  {
    Header(c, kind, payload) + payload
  }

  function KindOf(begin: bool, end: bool): byte {
    if begin && end then FULL else if begin then FIRST else if end then LAST else MIDDLE
  }

  /** The bytes appended for what is left of a record, when the current block has `room` bytes. */
  function Layout(c: Checksum, room: nat, data: Bytes, begin: bool): (r: Bytes)
    requires room <= BLOCK
    decreases |data|, if room <= HEADER then 1 else 0, if room < HEADER then 1 else 0
  {
    if room < HEADER then Zeros(room) + Layout(c, BLOCK, data, begin)
    else if HEADER + |data| <= room then Piece(c, KindOf(begin, true), data)
    else Piece(c, KindOf(begin, false), data[..room - HEADER]) + Layout(c, BLOCK, data[room - HEADER..], false)
  }

  /** The room left in the block after those bytes. */
  function RoomAfter(room: nat, data: Bytes): (r: nat)
    requires room <= BLOCK
    ensures r <= BLOCK
    decreases |data|, if room <= HEADER then 1 else 0, if room < HEADER then 1 else 0
  {
    if room < HEADER then RoomAfter(BLOCK, data)
    else if HEADER + |data| <= room then room - HEADER - |data|
    else RoomAfter(BLOCK, data[room - HEADER..])
  }

  /** The bytes that a list of AddRecord calls appends. */
  function Log(c: Checksum, room: nat, records: seq<Bytes>): Bytes
    requires room <= BLOCK
    decreases |records|
  {
    if records == [] then []
    else Layout(c, room, records[0], true) + Log(c, RoomAfter(room, records[0]), records[1..])
  }

  function RoomAfterAll(room: nat, records: seq<Bytes>): (r: nat)
    requires room <= BLOCK
    ensures r <= BLOCK
    decreases |records|
  {
    if records == [] then room else RoomAfterAll(RoomAfter(room, records[0]), records[1..])
  }

  /** One more AddRecord extends the log of the records before it. */
  lemma {:induction false} LogExtends(c: Checksum, room: nat, records: seq<Bytes>, record: Bytes)
    requires room <= BLOCK
    ensures Log(c, room, records + [record])
        == Log(c, room, records) + Layout(c, RoomAfterAll(room, records), record, true)
    ensures RoomAfterAll(room, records + [record]) == RoomAfter(RoomAfterAll(room, records), record)
    decreases |records|
  {
    var more := records + [record];
    if records == [] {
      assert more[1..] == [];
      assert Log(c, RoomAfter(room, record), []) == [];
    } else {
      var next := RoomAfter(room, records[0]);
      assert more[1..] == records[1..] + [record];
      LogExtends(c, next, records[1..], record);
      Regroup(Layout(c, room, records[0], true), Log(c, next, records[1..]),
          Layout(c, RoomAfterAll(room, records), record, true));
    }
  }

  lemma SwitchedLayout(c: Checksum, room: nat, data: Bytes, begin: bool)
    requires room < HEADER
    ensures Layout(c, room, data, begin) == Zeros(room) + Layout(c, BLOCK, data, begin)
    ensures RoomAfter(room, data) == RoomAfter(BLOCK, data)
  {
  }

  /** What a record appends and the room it leaves add up to the room there was, block by block. */
  lemma {:induction false} RoomIsLength(c: Checksum, room: nat, data: Bytes, begin: bool)
    requires Good(c) && room <= BLOCK
    ensures (RoomAfter(room, data) + |Layout(c, room, data, begin)|) % BLOCK == room % BLOCK
    decreases |data|, if room <= HEADER then 1 else 0, if room < HEADER then 1 else 0
  {
    if room < HEADER {
      RoomIsLength(c, BLOCK, data, begin);
      WholeBlocks(RoomAfter(BLOCK, data) + |Layout(c, BLOCK, data, begin)|, room);
    } else if HEADER + |data| <= room {
      assert RoomAfter(room, data) + |Layout(c, room, data, begin)| == room;
    } else {
      var rest := data[room - HEADER..];
      RoomIsLength(c, BLOCK, rest, false);
      assert |Layout(c, room, data, begin)| == room + |Layout(c, BLOCK, rest, false)|;
      WholeBlocks(RoomAfter(BLOCK, rest) + |Layout(c, BLOCK, rest, false)|, room);
    }
  }

  lemma SameBlockOffset(a: nat, b: nat, n: nat)
    requires a % BLOCK == b % BLOCK
    ensures (a + n) % BLOCK == (b + n) % BLOCK
  {
  }

  lemma WholeBlocks(blocks: nat, rest: nat)
    requires blocks % BLOCK == 0
    ensures (blocks + rest) % BLOCK == rest % BLOCK
  {
  }

  lemma RoomFromLength(room: nat, length: nat)
    requires room <= BLOCK && (room + length) % BLOCK == 0
    ensures var k := BLOCK - length % BLOCK;
      room == k || (room == 0 && k == BLOCK)
  {
  }

  lemma {:induction false} RoomAfterLog(c: Checksum, room: nat, records: seq<Bytes>)
    requires Good(c) && room <= BLOCK
    ensures (RoomAfterAll(room, records) + |Log(c, room, records)|) % BLOCK == room % BLOCK
    decreases |records|
  {
    if records != [] {
      RoomIsLength(c, room, records[0], true);
      var next := RoomAfter(room, records[0]);
      RoomAfterLog(c, next, records[1..]);
      BlocksJoin(room, next, |Layout(c, room, records[0], true)|, RoomAfterAll(next, records[1..]),
          |Log(c, next, records[1..])|);
    }
  }

  lemma BlocksJoin(room: nat, next: nat, size: nat, left: nat, more: nat)
    requires (next + size) % BLOCK == room % BLOCK && (left + more) % BLOCK == next % BLOCK
    ensures (left + (size + more)) % BLOCK == room % BLOCK
  {
  }

  /** A writer that is opened on a log takes its place in the block from the length alone, and goes on with that log. */
  lemma ResumedExtends(c: Checksum, records: seq<Bytes>, record: Bytes)
    requires Good(c)
    ensures var before := Log(c, BLOCK, records);
      Log(c, BLOCK, records + [record]) == before + Layout(c, BLOCK - |before| % BLOCK, record, true)
  {
    var room := RoomAfterAll(BLOCK, records);
    LogExtends(c, BLOCK, records, record);
    RoomAfterLog(c, BLOCK, records);
    RoomFromLength(room, |Log(c, BLOCK, records)|);
    NoRoomIsAll(c, room, BLOCK - |Log(c, BLOCK, records)| % BLOCK, record);
  }

  lemma NoRoomIsAll(c: Checksum, room: nat, k: nat, data: Bytes)
    requires k <= BLOCK && (room == k || (room == 0 && k == BLOCK))
    ensures Layout(c, room, data, true) == Layout(c, k, data, true)
  {
    assert Zeros(0) == [];
  }

  lemma LastPiece(c: Checksum, room: nat, data: Bytes, begin: bool)
    requires HEADER + |data| <= room <= BLOCK
    ensures data[..|data|] == data
    ensures Layout(c, room, data, begin) == Piece(c, KindOf(begin, true), data)
    ensures RoomAfter(room, data) == room - HEADER - |data|
  {
  }

  lemma FullPiece(c: Checksum, length: nat, data: Bytes, begin: bool)
    requires length < |data| && HEADER + length <= BLOCK
    ensures Layout(c, HEADER + length, data, begin)
         == Piece(c, KindOf(begin, false), data[..length]) + Layout(c, 0, data[length..], false)
    ensures Layout(c, 0, data[length..], false) == Layout(c, BLOCK, data[length..], false)
    ensures RoomAfter(HEADER + length, data) == RoomAfter(0, data[length..]) == RoomAfter(BLOCK, data[length..])
  {
    assert Zeros(0) == [];
  }

  /** log::Writer on a file that may already hold something. */
  class Writer {
    const c: Checksum
    var dest: Bytes
    var blockOffset: nat

    ghost predicate Valid()
      reads this
    {
      Good(c) && blockOffset <= BLOCK && blockOffset % BLOCK == |dest| % BLOCK
    }

    ghost function Room(): (r: nat)
      requires blockOffset <= BLOCK
      reads this
      ensures r <= BLOCK
    {
      BLOCK - blockOffset
    }

    constructor (checksum: Checksum, contents: Bytes)
      requires Good(checksum)
      ensures Valid() && c == checksum && dest == contents && blockOffset == |contents| % BLOCK
    {
      c := checksum;
      dest := contents;
      blockOffset := |contents| % BLOCK;
    }

    method EmitPhysicalRecord(kind: byte, payload: Bytes)
      requires Valid() && blockOffset + HEADER + |payload| <= BLOCK
      modifies this
      ensures Valid() && dest == old(dest) + Piece(c, kind, payload)
      ensures blockOffset == old(blockOffset) + HEADER + |payload|
    {
      var header := Header(c, kind, payload);
      Regroup(dest, header, payload);
      SameBlockOffset(blockOffset, |dest|, HEADER + |payload|);
      dest := dest + header;
      dest := dest + payload;
      blockOffset := blockOffset + HEADER + |payload|;
    }

    method SwitchBlock()
      requires Valid()
      modifies this
      ensures Valid()
      ensures old(blockOffset) > BLOCK - HEADER ==> dest == old(dest + Zeros(BLOCK - blockOffset)) && blockOffset == 0
      ensures old(blockOffset) <= BLOCK - HEADER ==> dest == old(dest) && blockOffset == old(blockOffset)
    {
      var leftover := BLOCK - blockOffset;
      if leftover < HEADER {
        if leftover > 0 {
          dest := dest + Zeros(leftover);
        }
        blockOffset := 0;
      }
    }

    /** One round of the loop: a piece of what is left, which is all of it unless the block is full first. */
    method AddPiece(data: Bytes, begin: bool) returns (length: nat)
      requires Valid()
      modifies this
      ensures Valid() && length <= |data|
      ensures old(RoomAfter(Room(), data)) == if length == |data| then Room() else RoomAfter(Room(), data[length..])
      ensures old(dest + Layout(c, Room(), data, begin))
           == if length == |data| then dest else dest + Layout(c, Room(), data[length..], false)
      ensures length < |data| ==> Room() == 0 && (length > 0 || old(Room()) == HEADER)
    {
      ghost var before, room := dest, Room();
      SwitchBlock();
      ghost var switched := dest;
      assert switched + Layout(c, Room(), data, begin) == before + Layout(c, room, data, begin) by {
        if room < HEADER {
          SwitchedLayout(c, room, data, begin);
          Regroup(before, Zeros(room), Layout(c, BLOCK, data, begin));
        }
      }
      var avail := BLOCK - blockOffset - HEADER;
      length := if |data| < avail then |data| else avail;
      var end := |data| == length;
      EmitPhysicalRecord(KindOf(begin, end), data[..length]);
      if end {
        LastPiece(c, avail + HEADER, data, begin);
      } else {
        FullPiece(c, length, data, begin);
        Regroup(switched, Piece(c, KindOf(begin, false), data[..length]), Layout(c, 0, data[length..], false));
      }
    }

    method AddRecord(record: Bytes)
      requires Valid()
      modifies this
      ensures Valid() && dest == old(dest + Layout(c, Room(), record, true))
      ensures Room() == old(RoomAfter(Room(), record))
    {
      var left := record;
      var begin := true;
      var more := true;
      while more
        invariant Valid()
        invariant old(dest + Layout(c, Room(), record, true))
            == if more then dest + Layout(c, Room(), left, begin) else dest
        invariant old(RoomAfter(Room(), record)) == if more then RoomAfter(Room(), left) else Room()
        decreases more, |left|, if Room() == HEADER then 1 else 0
      {
        var length := AddPiece(left, begin);
        more := length < |left|;
        left := left[length..];
        begin := false;
      }
    }
  }
}
