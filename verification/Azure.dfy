/** pkg/signature/kms/azure/signer.go: raw r||s signatures of the key vault to DER and back. */
module Azure {
  import opened Wrappers
  import opened Bytes
  import opened Der
  import opened DerInteger

  // Go's int bounds slices; half of it leaves room for headers.
  const RAW_LIMIT: nat := 0x2000_0000_0000_0000
  // The builder refuses a child this long.
  const BUILDER_LIMIT: nat := 0xFFFF_FFFF

  function Left(raw: bytes): bytes {
    raw[..|raw| / 2]
  }

  function Right(raw: bytes): bytes {
    raw[|raw| / 2..]
  }

  function R(raw: bytes): nat {
    FromBigEndian(Left(raw))
  }

  function S(raw: bytes): nat {
    FromBigEndian(Right(raw))
  }

  // The end of SignMessage.
  function ToDer(raw: bytes): Option<bytes>
    requires |raw| < RAW_LIMIT
  {
    RawEncodable(raw);
    if |SignatureBody(R(raw), S(raw))| < BUILDER_LIMIT then Some(DerSignature(R(raw), S(raw))) else None
  }

  function Abs(n: int): nat {
    if n < 0 then -n else n
  }

  // The end of VerifySignature; big.Int.Bytes drops the sign along with the leading zeros.
  function ToRaw(der: bytes): Option<bytes> {
    match ReadSignature(der)
    case None => None
    case Some((r, s)) => Some(ToBigEndian(Abs(r)) + ToBigEndian(Abs(s)))
  }

  lemma RawEncodable(raw: bytes)
    requires |raw| < RAW_LIMIT
    ensures Encodable(R(raw), S(raw))
  {
    IntegerBodyLength(Left(raw));
    IntegerBodyLength(Right(raw));
  }

  // What the strict reader still takes back; every signature up to 4 GB less a few headers qualifies.
  predicate Fits(raw: bytes)
    requires |raw| < RAW_LIMIT
  {
    RawEncodable(raw);
    |SignatureBody(R(raw), S(raw))| < CRYPTOBYTE_LIMIT
  }

  lemma ShortRawFits(raw: bytes)
    requires |raw| <= 0xFFFF_FF00
    ensures Fits(raw)
  {
    RawEncodable(raw);
    IntegerBodyLength(Left(raw));
    IntegerBodyLength(Right(raw));
    TlvBound(INTEGER, IntegerBody(R(raw)));
    TlvBound(INTEGER, IntegerBody(S(raw)));
    assert |raw| == |Left(raw)| + |Right(raw)|;
  }

  predicate NoLeadingZero(half: bytes) {
    half == [] || half[0] != 0
  }

  // Raw to DER keeps both integers.
  lemma DerKeepsIntegers(raw: bytes)
    requires |raw| < RAW_LIMIT
    ensures ToDer(raw).Some? && ReadSignature(ToDer(raw).value).Some? <==> Fits(raw)
    ensures Fits(raw) ==> ReadSignature(ToDer(raw).value) == Some((R(raw), S(raw)))
  {
    RawEncodable(raw);
    ReadSignatureOf(R(raw), S(raw));
  }

  // Raw to DER to raw drops the leading zero bytes of each half and nothing else, so the original
  // bytes come back exactly when neither non-empty half starts with a zero byte.
  lemma RawRoundTrip(raw: bytes)
    requires |raw| < RAW_LIMIT && Fits(raw)
    ensures ToDer(raw).Some?
    ensures ToRaw(ToDer(raw).value) == Some(StripZeros(Left(raw)) + StripZeros(Right(raw)))
    ensures |ToRaw(ToDer(raw).value).value| == |raw| - LeadingZeros(Left(raw)) - LeadingZeros(Right(raw))
    ensures ToRaw(ToDer(raw).value) == Some(raw) <==> NoLeadingZero(Left(raw)) && NoLeadingZero(Right(raw))
  {
    hide ToDer, ReadSignature, StripZeros, LeadingZeros, ToBigEndian, FromBigEndian;
    DerKeepsIntegers(raw);
    ToFromBigEndian(Left(raw));
    ToFromBigEndian(Right(raw));
    StripZerosLength(Left(raw));
    StripZerosLength(Right(raw));
    assert raw == Left(raw) + Right(raw);
  }

  lemma TopByte(n: nat, w: nat)
    requires w > 0 && n < Pow256(w)
    ensures FixedWidth(n, w)[0] == 0 <==> n < Pow256(w - 1)
  {
    FromFixedWidth(n, w);
    var bs := FixedWidth(n, w);
    ToFromBigEndian(bs);
    StripZerosLength(bs);
    ToBigEndianLength(n, w - 1);
  }

  // The fixed-width form of section 3.4 of RFC 7518 survives exactly for integers of full width.
  lemma FixedWidthRoundTrip(r: nat, s: nat, w: nat)
    requires 0 < w < 0x1000_0000 && r < Pow256(w) && s < Pow256(w)
    ensures var raw := FixedWidth(r, w) + FixedWidth(s, w);
            && ToDer(raw).Some?
            && ReadSignature(ToDer(raw).value) == Some((r, s))
            && (ToRaw(ToDer(raw).value) == Some(raw) <==> r >= Pow256(w - 1) && s >= Pow256(w - 1))
  {
    var raw := FixedWidth(r, w) + FixedWidth(s, w);
    assert Left(raw) == FixedWidth(r, w) && Right(raw) == FixedWidth(s, w);
    FromFixedWidth(r, w);
    FromFixedWidth(s, w);
    ShortRawFits(raw);
    DerKeepsIntegers(raw);
    RawRoundTrip(raw);
    TopByte(r, w);
    TopByte(s, w);
  }

  lemma ValueOfHalf(half: bytes, n: nat)
    requires FromBigEndian(half) == n
    ensures |ToBigEndian(n)| <= |half|
  {
    ToFromBigEndian(half);
    StripZerosLength(half);
  }

  // DER of any other origin: the halves of the raw bytes are the two absolute values exactly when the second
  // has as many bytes as the first or one more, and the integers themselves when none is negative either.
  lemma RawHalvesIff(der: bytes)
    requires ReadSignature(der).Some?
    ensures ToRaw(der).Some?
    ensures var (r, s), raw := ReadSignature(der).value, ToRaw(der).value;
            var a, b := |ToBigEndian(Abs(r))|, |ToBigEndian(Abs(s))|;
            && (R(raw) == Abs(r) && S(raw) == Abs(s) <==> a <= b <= a + 1)
            && (R(raw) == r && S(raw) == s <==> r >= 0 && s >= 0 && a <= b <= a + 1)
  {
    hide ReadSignature, ToBigEndian, FromBigEndian;
    var (r, s) := ReadSignature(der).value;
    var a, b := ToBigEndian(Abs(r)), ToBigEndian(Abs(s));
    var raw := a + b;
    FromToBigEndian(Abs(r));
    FromToBigEndian(Abs(s));
    if |raw| / 2 == |a| {
      assert Left(raw) == a && Right(raw) == b;
    } else if |raw| / 2 < |a| {
      if R(raw) == Abs(r) {
        ValueOfHalf(Left(raw), Abs(r));
      }
    } else if S(raw) == Abs(s) {
      ValueOfHalf(Right(raw), Abs(s));
    }
  }

  // The DER of two pairs that become the same raw bytes, of which only the second pair reads back.
  lemma LostPairExample()
    ensures Encodable(0x0102, 0x03) && Encodable(0x01, 0x0203)
    ensures ToRaw(DerSignature(0x0102, 0x03)) == ToRaw(DerSignature(0x01, 0x0203)) == Some([1, 2, 3])
  {
    hide ToRaw, DerSignature, Encodable, ToBigEndian, Pow256, IntegerBody;
    SmallBytes();
    RawOfSmall(0x0102, 0x03);
    RawOfSmall(0x01, 0x0203);
    var one: bytes, three: bytes := [1], [3];
    var r: bytes, s: bytes := [1, 2], [2, 3];
    assert r + three == one + s == [1, 2, 3];
  }

  lemma RawOfSmall(r: nat, s: nat)
    requires r < Pow256(2) && s < Pow256(2)
    ensures Encodable(r, s) && ToRaw(DerSignature(r, s)) == Some(ToBigEndian(r) + ToBigEndian(s))
  {
    ToBigEndianLength(r, 2);
    ToBigEndianLength(s, 2);
    TlvBound(INTEGER, IntegerBody(r));
    TlvBound(INTEGER, IntegerBody(s));
    ReadSignatureOf(r, s);
  }

  lemma SmallBytes()
    ensures Pow256(2) == 0x1_0000
    ensures ToBigEndian(0x01) == [1] && ToBigEndian(0x03) == [3]
    ensures ToBigEndian(0x0102) == [1, 2] && ToBigEndian(0x0203) == [2, 3]
  {
    assert Pow256(1) == 256;
    assert ToBigEndian(0) == [];
    assert ToBigEndian(1) == [1] && ToBigEndian(2) == [2] && ToBigEndian(3) == [3];
  }
}
