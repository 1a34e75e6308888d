/**
 * The formats by example: what is written for some small values, byte by byte (doc/table_format.md, doc/log_format.md,
 * util/coding.h, db/write_batch.cc, db/version_edit.cc; nanopb pb_encode.c).
 */
module KnownBytes {
  import opened Keys
  import opened Coding
  import Comparators
  import Separators
  import Blocks
  import BatchCodec
  import EditCodec
  import FilterBlocks
  import LogChecksum
  import LogFormat
  import opened Descriptors
  import opened ProtoScalars
  import opened ProtoWire

  lemma FixedWidths()
    ensures Fixed(0x01020304, 4) == [4, 3, 2, 1]
    ensures Fixed(256, 8) == [0, 1, 0, 0, 0, 0, 0, 0] && Fixed(257, 8) == [1, 1, 0, 0, 0, 0, 0, 0]
  {
  }

  lemma Varints()
    ensures Varint(127) == [0x7f] && Varint(128) == [0x80, 0x01] && Varint(300) == [0xac, 0x02]
    ensures Prefixed([7, 8]) == [2, 7, 8]
  {
  }

  /** Bits above the thirty-second are lost. */
  lemma LongVarint()
    ensures Get32([0x81, 0x80, 0x80, 0x80, 0x10]) == Some((1, []))
    ensures Get32([0x80, 0x80, 0x80, 0x80, 0x80]) == None
  {
    var s: Bytes := [0x81, 0x80, 0x80, 0x80, 0x10];
    assert s[1..] == [0x80, 0x80, 0x80, 0x10] && s[1..][1..] == [0x80, 0x80, 0x10] && s[1..][1..][1..] == [0x80, 0x10];
    assert ReadVarint([0x10], 1) == Some((0x10, 1)) && ReadVarint([0x80, 0x10], 2) == Some((0x800, 2));
    assert ReadVarint(s, 5) == Some((0x1_0000_0001, 5));
    var t: Bytes := [0x80, 0x80, 0x80, 0x80, 0x80];
    assert t[1..] == [0x80, 0x80, 0x80, 0x80] && t[1..][1..] == [0x80, 0x80, 0x80] && t[1..][1..][1..] == [0x80, 0x80];
    assert ReadVarint([0x80], 1) == None && ReadVarint([0x80, 0x80], 2) == None;
    assert ReadVarint(t, 5) == None;
  }

  lemma KeyIs(k: Separators.TableKey, tag: nat)
    requires tag == k.seqno * 256 + if k.kind == Value then 1 else 0
    ensures Comparators.EncodeKey(k) == k.user + Fixed(tag, 8)
  {
  }

  /** "a" at number 1, as a value and as a deletion. */
  lemma InternalKeys()
    ensures Comparators.EncodeKey(Separators.TableKey([97], 1, Value)) == [97] + [1, 1, 0, 0, 0, 0, 0, 0]
    ensures Comparators.EncodeKey(Separators.TableKey([97], 1, Deletion)) == [97] + [0, 1, 0, 0, 0, 0, 0, 0]
  {
    KeyIs(Separators.TableKey([97], 1, Value), 257);
    KeyIs(Separators.TableKey([97], 1, Deletion), 256);
    FixedWidths();
  }

  lemma BlockEntries()
    ensures Blocks.EncodeEntry(0, [97, 98], [120]) == [0, 2, 1, 97, 98, 120]
    ensures Blocks.EncodeEntry(1, [99], []) == [1, 1, 0, 99]
  {
  }

  lemma BatchRecords()
    ensures BatchCodec.Records([BatchCodec.Put([97], [120]), BatchCodec.Delete([98])]) == [1, 1, 97, 1, 120, 0, 1, 98]
  {
    var put, delete := BatchCodec.Put([97], [120]), BatchCodec.Delete([98]);
    assert Prefixed([97]) == [1, 97] && Prefixed([120]) == [1, 120] && Prefixed([98]) == [1, 98];
    assert BatchCodec.RecordOf(put) == [1, 1, 97, 1, 120] && BatchCodec.RecordOf(delete) == [0, 1, 98];
    assert [put, delete][1..] == [delete] && [delete][1..] == [];
    assert BatchCodec.Records([delete]) == [0, 1, 98];
  }

  lemma Batches()
    ensures BatchCodec.BatchBytes(5, [BatchCodec.Put([97], [120]), BatchCodec.Delete([98])])
         == [5, 0, 0, 0, 0, 0, 0, 0] + [2, 0, 0, 0] + [1, 1, 97, 1, 120, 0, 1, 98]
  {
    BatchRecords();
    assert Fixed(5, 8) == [5, 0, 0, 0, 0, 0, 0, 0];
    assert Fixed(2, 4) == [2, 0, 0, 0];
  }

  lemma EditFields()
    ensures EditCodec.Encoded([EditCodec.Comparator([97])]) == [1, 1, 97]
    ensures EditCodec.Encoded([EditCodec.LogNumber(3)]) == [2, 3]
    ensures EditCodec.Encoded([EditCodec.NextFile(3)]) == [3, 3]
    ensures EditCodec.Encoded([EditCodec.LastSequence(3)]) == [4, 3]
    ensures EditCodec.Encoded([EditCodec.CompactPointer(1, [98])]) == [5, 1, 1, 98]
    ensures EditCodec.Encoded([EditCodec.DeletedFile(1, 3)]) == [6, 1, 3]
    ensures EditCodec.Encoded([EditCodec.NewFile(1, EditCodec.FileMeta(3, 4, [97], [98]))])
         == [7, 1, 3, 4, 1, 97, 1, 98]
    ensures EditCodec.Encoded([EditCodec.PrevLogNumber(3)]) == [9, 3]
  {
    One(EditCodec.Comparator([97]));
    One(EditCodec.LogNumber(3));
    One(EditCodec.NextFile(3));
    One(EditCodec.LastSequence(3));
    One(EditCodec.CompactPointer(1, [98]));
    One(EditCodec.DeletedFile(1, 3));
    One(EditCodec.NewFile(1, EditCodec.FileMeta(3, 4, [97], [98])));
    One(EditCodec.PrevLogNumber(3));
  }

  lemma One(f: EditCodec.Field)
    ensures EditCodec.Encoded([f]) == Varint(EditCodec.TagOf(f)) + EditCodec.BodyOf(f)
  {
    assert [f][1..] == [];
    assert EditCodec.BodyOf(f) + [] == EditCodec.BodyOf(f);
  }

  /** A piece of a log: checksum, length, kind, payload; and the four kinds. */
  lemma LogPieces(c: LogChecksum.Checksum)
    ensures LogFormat.Piece(c, 1, [97, 98]) == c.seal([1, 97, 98]) + [2, 0, 1, 97, 98]
    ensures LogFormat.KindOf(true, true) == 1 && LogFormat.KindOf(true, false) == 2
    ensures LogFormat.KindOf(false, false) == 3 && LogFormat.KindOf(false, true) == 4
  {
    assert [1] + [97, 98] == [1, 97, 98];
  }

  lemma FilterBlock()
    ensures FilterBlocks.Packed([1, 2, 3], [0, 3]) == [1, 2, 3, 0, 0, 0, 0, 3, 0, 0, 0, 11]
  {
    FilterBlocks.Window();
    assert [0, 3][..1] == [0] && [0][..0] == [];
  }

  /** The examples of the protocol buffer encoding guide. */
  lemma VarintFields()
    ensures EncodeOne(Field(1, Required, SignedInt(4), None), Int(150)) == [0x08, 0x96, 0x01]
    ensures EncodeOne(Field(1, Required, ZigzagInt(4), None), Int(-1)) == [0x08, 1]
    ensures EncodeOne(Field(1, Required, ZigzagInt(4), None), Int(1)) == [0x08, 2]
  {
    ZigzagRoundTrip(-1);
    ZigzagRoundTrip(1);
  }

  lemma StringField()
    ensures EncodeOne(Field(2, Required, StringIn(8), None), Raw([116, 101])) == [0x12, 2, 116, 101]
  {
    assert TagBytes(2, 2) == [0x12];
  }

  lemma FixedField(k: FieldType, width: nat, key: byte)
    requires (k == Fixed32 && width == 4 && key == 0x0d) || (k == Fixed64 && width == 8 && key == 0x09)
    ensures EncodeOne(Field(1, Required, k, None), Int(7)) == [key] + Fixed(7, width)
  {
    assert TagBytes(5, 1) == [0x0d] && TagBytes(1, 1) == [0x09];
    assert ToUnsigned(7) == 7;
  }

  lemma PackedField()
    ensures var f := Field(4, Repeated(8, OwnCount), UnsignedInt(4), None);
      EncodeSlot(f, Many([Int(3), Int(270), Int(86942)])) == [0x22, 6, 3, 0x8e, 2, 0x9e, 0xa7, 5]
  {
  }
}
