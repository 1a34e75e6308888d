/** Integers on the wire: sign extension, zigzag, fixed width (nanopb pb_encode.c, pb_decode.c). */
module ProtoScalars {
  import opened Keys
  import opened Coding
  import opened Descriptors

  /** A conversion to uint64_t. */
  function ToUnsigned(n: int): (r: nat)
    ensures r < TWO_64
  {
    n % TWO_64
  }

  /** A conversion to a signed integer of `size` bytes. */
  function ToSigned(v: nat, size: nat): int {
    var low := v % Span(size);
    if 2 * low < Span(size) then low else low - Span(size)
  }

  /** pb_encode_svarint: twice the number, complemented when it is negative. */
  function Zigzag(n: int): (r: nat)
    ensures r < TWO_64
  {
    var doubled := ToUnsigned(n) * 2 % TWO_64;
    if n < 0 then TWO_64 - 1 - doubled else doubled
  }

  /** pb_decode_svarint */
  function Unzigzag(v: nat): int {
    if v % 2 == 1 then ToSigned(ToUnsigned(-1 - v / 2), 8) else ToSigned(v / 2, 8)
  }

  lemma ZigzagRoundTrip(n: int)
    requires InSigned(n, 8)
    ensures Unzigzag(Zigzag(n)) == n && Zigzag(n) == if n < 0 then -2 * n - 1 else 2 * n
  {
    Doubled(n);
    if n < 0 {
      HalfOdd(-2 * n - 1, -1 - n);
      NegativeWraps(n);
    } else {
      HalfEven(2 * n, n);
    }
  }

  lemma Doubled(n: int)
    requires InSigned(n, 8)
    ensures Zigzag(n) == if n < 0 then -2 * n - 1 else 2 * n
  {
    if n < 0 {
      NegativeWraps(n);
      NegativeWraps(2 * n);
      assert ToUnsigned(n) * 2 % TWO_64 == (2 * n + TWO_64 + TWO_64) % TWO_64;
    }
  }

  lemma NegativeWraps(n: int)
    requires -(TWO_64 as int) <= n < 0
    ensures n % TWO_64 == n + TWO_64 && (n + TWO_64 + TWO_64) % TWO_64 == n + TWO_64
  {
  }

  lemma HalfOdd(v: nat, m: nat)
    requires v == 2 * m + 1
    ensures v % 2 == 1 && v / 2 == m
  {
  }

  lemma HalfEven(v: nat, m: nat)
    requires v == 2 * m
    ensures v % 2 == 0 && v / 2 == m
  {
  }

  lemma NegativeCut(n: int, size: nat)
    requires IntSize(size) && InSigned(n, size) && n < 0
    ensures (n + TWO_64) % Span(size) == n + Span(size)
  {
    if size == 1 {
      assert (n + TWO_64) % 0x100 == n + 0x100;
    } else if size == 2 {
      assert (n + TWO_64) % 0x1_0000 == n + 0x1_0000;
    } else if size == 4 {
      assert (n + TWO_64) % TWO_32 == n + TWO_32;
    }
  }

  lemma SignedCut(n: int, size: nat)
    requires IntSize(size) && InSigned(n, size)
    ensures ToSigned(ToUnsigned(n), size) == n
  {
    if n < 0 {
      assert ToUnsigned(n) == n + TWO_64;
      NegativeCut(n, size);
    } else {
      assert ToUnsigned(n) == n;
    }
  }

  /**
   * A number survives the conversion to 64 unsigned bits and back to its own size, and through 32 bits if it
   * is no longer than that.
   */
  lemma SignedRoundTrip(n: int, size: nat)
    requires IntSize(size) && InSigned(n, size)
    ensures ToSigned(ToUnsigned(n), 8) == n && ToSigned(ToUnsigned(n), size) == n
    ensures size != 8 ==> ToSigned(ToUnsigned(n), 4) == n
  {
    SignedCut(n, size);
    SignedCut(n, 8);
    if size != 8 { SignedCut(n, 4); }
  }

  // ----- one scalar -----

  /** pb_enc_varint, pb_enc_uvarint, pb_enc_svarint, pb_enc_fixed32, pb_enc_fixed64 */
  function EncodeScalar(k: FieldType, n: int): Bytes {
    match k
    case SignedInt(_) => Varint(ToUnsigned(n))
    case UnsignedInt(_) => Varint(ToUnsigned(n))
    case ZigzagInt(_) => Varint(Zigzag(n))
    case Fixed32 => Fixed(ToUnsigned(n), 4)
    case Fixed64 => Fixed(ToUnsigned(n), 8)
    case _ => []
  }

  /** pb_decode_varint */
  function DecodeVarint(s: Bytes): (r: Option<(nat, Bytes)>)
    ensures r.Some? ==> |r.value.1| < |s|
  {
    match Get64(s)
    case None => None
    case Some(r) => Some(r)
  }

  function ReadFixed(s: Bytes, n: nat): (r: Option<(nat, Bytes)>)
    requires n > 0
    ensures r.Some? ==> |r.value.1| < |s|
  {
    if |s| < n then None else Some((DecodeFixed(s[..n]), s[n..]))
  }

  /** Cutting a number to the size of its field is an error if it changes it. */
  function Clamped(svalue: int, size: nat, rest: Bytes): Option<(Value, Bytes)> {
    if !IntSize(size) then None
    else if ToSigned(ToUnsigned(svalue), size) != svalue then None
    else Some((Int(svalue), rest))
  }

  /** pb_dec_varint, pb_dec_uvarint, pb_dec_svarint, pb_dec_fixed32, pb_dec_fixed64 */
  function DecodeScalar(k: FieldType, s: Bytes): (r: Option<(Value, Bytes)>)
    ensures r.Some? ==> |r.value.1| < |s|
  {
    match k
    case SignedInt(size) =>
      (match DecodeVarint(s)
       case None => None
       case Some((v, rest)) => Clamped(if size == 8 then ToSigned(v, 8) else ToSigned(v, 4), size, rest))
    case UnsignedInt(size) =>
      (match DecodeVarint(s)
       case None => None
       case Some((v, rest)) => if IntSize(size) && v % Span(size) == v then Some((Int(v), rest)) else None)
    case ZigzagInt(size) =>
      (match DecodeVarint(s)
       case None => None
       case Some((v, rest)) => Clamped(Unzigzag(v), size, rest))
    case Fixed32 =>
      (match ReadFixed(s, 4) case None => None case Some((v, rest)) => Some((Int(v), rest)))
    case Fixed64 =>
      (match ReadFixed(s, 8) case None => None case Some((v, rest)) => Some((Int(v), rest)))
    case _ => None
  }

  lemma FixedRead(v: nat, n: nat, rest: Bytes)
    requires n > 0 && v < Power(256, n)
    ensures ReadFixed(Fixed(v, n) + rest, n) == Some((v, rest))
  {
    FixedRoundTrip(v, n);
    var s := Fixed(v, n) + rest;
    assert s[..n] == Fixed(v, n) && s[n..] == rest;
  }

  lemma Fixed32Read(n: int, rest: Bytes)
    requires 0 <= n < TWO_32
    ensures DecodeScalar(Fixed32, Fixed(ToUnsigned(n), 4) + rest) == Some((Int(n), rest))
  {
    Powers();
    assert ToUnsigned(n) == n;
    FixedRead(n, 4, rest);
  }

  lemma Fixed64Read(n: int, rest: Bytes)
    requires 0 <= n < TWO_64
    ensures DecodeScalar(Fixed64, Fixed(ToUnsigned(n), 8) + rest) == Some((Int(n), rest))
  {
    Powers();
    assert ToUnsigned(n) == n;
    FixedRead(n, 8, rest);
  }

  lemma SignedRead(n: int, size: nat, rest: Bytes)
    requires IntSize(size) && InSigned(n, size)
    ensures DecodeScalar(SignedInt(size), Varint(ToUnsigned(n)) + rest) == Some((Int(n), rest))
  {
    Get64RoundTrip(ToUnsigned(n), rest);
    SignedRoundTrip(n, size);
  }

  lemma ZigzagRead(n: int, size: nat, rest: Bytes)
    requires IntSize(size) && InSigned(n, size)
    ensures DecodeScalar(ZigzagInt(size), Varint(Zigzag(n)) + rest) == Some((Int(n), rest))
  {
    Get64RoundTrip(Zigzag(n), rest);
    SignedRoundTrip(n, size);
    ZigzagRoundTrip(n);
  }

  lemma UnsignedRead(n: int, size: nat, rest: Bytes)
    requires IntSize(size) && 0 <= n < Span(size)
    ensures DecodeScalar(UnsignedInt(size), Varint(ToUnsigned(n)) + rest) == Some((Int(n), rest))
  {
    assert ToUnsigned(n) == n;
    Get64RoundTrip(n, rest);
  }

  /** Every scalar in range decodes back from its encoding, whatever follows. */
  lemma ScalarRoundTrip(k: FieldType, n: int, rest: Bytes)
    requires Packable(k) && TypeOk(k) && ValueHeld(k, Int(n))
    ensures DecodeScalar(k, EncodeScalar(k, n) + rest) == Some((Int(n), rest))
  {
    match k
    case SignedInt(size) => SignedRead(n, size, rest);
    case ZigzagInt(size) => ZigzagRead(n, size, rest);
    case UnsignedInt(size) => UnsignedRead(n, size, rest);
    case Fixed32 => Fixed32Read(n, rest);
    case Fixed64 => Fixed64Read(n, rest);
  }

  lemma ScalarTakesBytes(k: FieldType, n: int)
    requires Packable(k)
    ensures EncodeScalar(k, n) != []
  {
    match k
    case SignedInt(_) =>
    case UnsignedInt(_) =>
    case ZigzagInt(_) =>
    case Fixed32 => assert |EncodeScalar(k, n)| == 4;
    case Fixed64 => assert |EncodeScalar(k, n)| == 8;
  }
}
