/**
 * The checksums of log pieces: any scheme whose reader accepts what its writer stores, and the masked CRC32C
 * as one.
 */
module LogChecksum {
  import opened Keys
  import Crc32c

  /** What a writer stores over some bytes, and what a reader makes of four stored bytes. */
  datatype Checksum = Checksum(seal: Bytes -> Bytes, accept: (Bytes, Bytes) -> bool)

  ghost predicate Good(c: Checksum) {
    forall covered: Bytes {:trigger c.seal(covered)} :: |c.seal(covered)| == 4 && c.accept(c.seal(covered), covered)
  }

  function ToByte(b: bv8): byte {
    b as nat
  }

  function FromByte(b: byte): bv8 {
    b as bv8
  }

  function Bits(s: Bytes): (r: seq<bv8>)
    ensures |r| == |s| && forall i :: 0 <= i < |s| ==> r[i] == FromByte(s[i])
  {
    seq(|s|, i requires 0 <= i < |s| => FromByte(s[i]))
  }

  lemma Raw(x: nat)
    requires x < 256
    ensures (x as bv8) as nat == x
  {
    assert x % 256 == x;
  }

  lemma FromByteAndBack(x: byte)
    ensures ToByte(FromByte(x)) == x
  {
    Raw(x);
  }

  lemma ToByteAndBack(b: bv8)
    ensures FromByte(ToByte(b)) == b
  {
  }

  /** Bits `8 * i` and up. */
  function ByteAt(w: bv32, i: nat): bv8
    requires i < 4
  {
    if i == 0 then (w & 0xff) as bv8
    else if i == 1 then ((w >> 8) & 0xff) as bv8
    else if i == 2 then ((w >> 16) & 0xff) as bv8
    else ((w >> 24) & 0xff) as bv8
  }

  /** EncodeFixed32, byte by byte. */
  function StoreWord(w: bv32): (r: Bytes)
    ensures |r| == 4
  {
    [ToByte(ByteAt(w, 0)), ToByte(ByteAt(w, 1)), ToByte(ByteAt(w, 2)), ToByte(ByteAt(w, 3))]
  }

  /** DecodeFixed32 */
  function LoadWord(s: Bytes): bv32
    requires |s| == 4
  {
    Crc32c.Word(FromByte(s[0]), FromByte(s[1]), FromByte(s[2]), FromByte(s[3]))
  }

  lemma BytesOfWord(w: bv32)
    ensures Crc32c.Word(ByteAt(w, 0), ByteAt(w, 1), ByteAt(w, 2), ByteAt(w, 3)) == w
  {
  }

  lemma WordOfBytes(b0: bv8, b1: bv8, b2: bv8, b3: bv8)
    ensures var w := Crc32c.Word(b0, b1, b2, b3);
      ByteAt(w, 0) == b0 && ByteAt(w, 1) == b1 && ByteAt(w, 2) == b2 && ByteAt(w, 3) == b3
  {
  }

  lemma WordStored(w: bv32)
    ensures LoadWord(StoreWord(w)) == w
  {
    forall i | 0 <= i < 4 ensures FromByte(ToByte(ByteAt(w, i))) == ByteAt(w, i) { ToByteAndBack(ByteAt(w, i)); }
    BytesOfWord(w);
  }

  lemma WordLoaded(s: Bytes)
    requires |s| == 4
    ensures StoreWord(LoadWord(s)) == s
  {
    WordOfBytes(FromByte(s[0]), FromByte(s[1]), FromByte(s[2]), FromByte(s[3]));
    FromByteAndBack(s[0]);
    FromByteAndBack(s[1]);
    FromByteAndBack(s[2]);
    FromByteAndBack(s[3]);
  }

  /** The writer continues the checksum of the kind, which it keeps ready, over the payload. */
  function Seal(covered: Bytes): (r: Bytes)
    ensures |r| == 4
  {
    if covered == [] then [0, 0, 0, 0]
    else
      var typeCrc := Crc32c.ExtendSpec(0, Bits(covered[..1]));
      StoredBytes(Crc32c.ExtendSpec(typeCrc, Bits(covered[1..])))
  }

  /** A checksum as it is stored. */
  function StoredBytes(sum: bv32): (r: Bytes)
    ensures |r| == 4
  {
    StoreWord(Crc32c.Mask(sum))
  }

  /** The reader takes the checksum of kind and payload at once. */
  predicate Accept(stored: Bytes, covered: Bytes) {
    && |stored| == 4
    && (covered == [] || Crc32c.Unmask(LoadWord(stored)) == Crc32c.ExtendSpec(0, Bits(covered)))
  }

  function Crc(): Checksum {
    Checksum(Seal, Accept)
  }

  lemma StoredSum(sum: bv32)
    ensures Crc32c.Unmask(LoadWord(StoredBytes(sum))) == sum
  {
    WordStored(Crc32c.Mask(sum));
    Crc32c.MaskRoundTrip(sum);
  }

  lemma SealIs(covered: Bytes)
    requires covered != []
    ensures Seal(covered) == StoredBytes(Crc32c.ExtendSpec(0, Bits(covered)))
  {
    BitsSplit(covered);
    Crc32c.ExtendComposes(0, Bits(covered[..1]), Bits(covered[1..]));
  }

  lemma BitsSplit(covered: Bytes)
    requires covered != []
    ensures Bits(covered) == Bits(covered[..1]) + Bits(covered[1..])
  {
    var a, b := covered[..1], covered[1..];
    forall i | 0 <= i < |covered|
      ensures Bits(covered)[i] == (Bits(a) + Bits(b))[i]
    {
      if i < 1 {
        SameByte(covered, i, a, i);
      } else {
        SameByte(covered, i, b, i - 1);
      }
    }
  }

  lemma SameByte(s: Bytes, i: nat, t: Bytes, j: nat)
    requires i < |s| && j < |t| && s[i] == t[j]
    ensures Bits(s)[i] == Bits(t)[j]
  {
  }

  lemma SealAccepted(covered: Bytes)
    ensures Accept(Seal(covered), covered)
  {
    if covered != [] {
      SealIs(covered);
      StoredSum(Crc32c.ExtendSpec(0, Bits(covered)));
    }
  }

  /** The reader accepts every piece that the writer seals. */
  lemma CrcIsGood()
    ensures Good(Crc())
  {
    forall covered: Bytes
      ensures |Crc().seal(covered)| == 4 && Crc().accept(Crc().seal(covered), covered)
    {
      SealAccepted(covered);
    }
  }
}
