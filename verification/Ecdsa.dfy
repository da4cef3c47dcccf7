/** pkg/signature/ecdsa.go: the two signature encodings VerifySignature accepts. */
module Ecdsa {
  import opened Wrappers
  import opened Bytes
  import opened Der
  import opened DerInteger

  // The curve check on a digest and public key fixed by the caller.
  type Check = (int, int) -> bool

  datatype Verdict =
    | Valid
    | InvalidAsn1
    | InvalidP1363Length
    | InvalidP1363

  // encoding/asn1 into a struct of two integers: data after the SEQUENCE and inside it is ignored.
  predicate ParsesAsAsn1(sig: bytes) {
    match ReadElement(sig, ASN1_LIMIT)
    case None => false
    case Some((e, _)) =>
      && e.cls == UNIVERSAL && e.compound && e.tag == 16
      && ReadInteger(e.body, ASN1_LIMIT).Some?
      && ReadInteger(ReadInteger(e.body, ASN1_LIMIT).value.1, ASN1_LIMIT).Some?
  }

  // The integers ecdsa.VerifyASN1 hands to the curve check, if it gets that far.
  function Asn1Pair(sig: bytes): Option<(int, int)> {
    match ReadSignature(sig)
    case Some((r, s)) => if r >= 0 && s >= 0 then Some((r, s)) else None
    case None => None
  }

  // ecdsa.Verify: positive integers only, then by way of the DER form.
  function RawPair(r: nat, s: nat): Option<(int, int)>
    requires Encodable(r, s)
  {
    if r == 0 || s == 0 then None else Asn1Pair(DerSignature(r, s))
  }

  predicate P1363Length(sig: bytes) {
    !(|sig| == 0 || |sig| > 132 || |sig| % 2 != 0)
  }

  function HalfR(sig: bytes): nat {
    FromBigEndian(sig[..|sig| / 2])
  }

  function HalfS(sig: bytes): nat {
    FromBigEndian(sig[|sig| / 2..])
  }

  lemma HalvesEncodable(sig: bytes)
    requires P1363Length(sig)
    ensures Encodable(HalfR(sig), HalfS(sig))
    ensures |SignatureBody(HalfR(sig), HalfS(sig))| < CRYPTOBYTE_LIMIT
  {
    IntegerBodyLength(sig[..|sig| / 2]);
    IntegerBodyLength(sig[|sig| / 2..]);
    TlvBound(INTEGER, IntegerBody(HalfR(sig)));
    TlvBound(INTEGER, IntegerBody(HalfS(sig)));
  }

  // The pair the curve check is asked about, whichever encoding the bytes are taken for.
  function CheckedPair(sig: bytes): Option<(int, int)> {
    if ParsesAsAsn1(sig) then Asn1Pair(sig)
    else if P1363Length(sig) then HalvesEncodable(sig); RawPair(HalfR(sig), HalfS(sig))
    else None
  }

  // The tail of VerifySignature, once the digest is computed and the signature read.
  function VerifySignature(sig: bytes, check: Check): Verdict {
    var passed := CheckedPair(sig).Some? && check(CheckedPair(sig).value.0, CheckedPair(sig).value.1);
    if ParsesAsAsn1(sig) then
      if passed then Valid else InvalidAsn1
    else if !P1363Length(sig) then InvalidP1363Length
    else if passed then Valid
    else InvalidP1363
  }

  function P1363(r: nat, s: nat, w: nat): (bs: bytes)
    ensures |bs| == 2 * w
  {
    FixedWidth(r, w) + FixedWidth(s, w)
  }

  // No curve accepts a zero integer.
  ghost predicate RejectsZero(check: Check) {
    forall r, s :: r == 0 || s == 0 ==> !check(r, s)
  }

  lemma DerIsAsn1(r: nat, s: nat)
    requires Encodable(r, s)
    requires |SignatureBody(r, s)| < ASN1_LIMIT
    ensures ParsesAsAsn1(DerSignature(r, s))
    ensures Asn1Pair(DerSignature(r, s)) == Some((r, s))
  {
    hide Tlv, ReadElement, ReadInteger, IntegerBody;
    var body := SignatureBody(r, s);
    ReadSignatureOf(r, s);
    ReadTlv(SEQUENCE, body, [], ASN1_LIMIT);
    assert DerSignature(r, s) + [] == DerSignature(r, s);
    var sTlv := Tlv(INTEGER, IntegerBody(s));
    ReadIntegerOf(r, sTlv, ASN1_LIMIT);
    ReadIntegerOf(s, [], ASN1_LIMIT);
    assert sTlv + [] == sTlv;
  }

  lemma WidthBound(r: nat, s: nat, w: nat)
    requires w <= 66 && r < Pow256(w) && s < Pow256(w)
    ensures Encodable(r, s) && |SignatureBody(r, s)| <= 154
  {
    ToBigEndianLength(r, w);
    ToBigEndianLength(s, w);
    TlvBound(INTEGER, IntegerBody(r));
    TlvBound(INTEGER, IntegerBody(s));
  }

  lemma P1363Halves(r: nat, s: nat, w: nat)
    requires 1 <= w <= 66 && r < Pow256(w) && s < Pow256(w)
    ensures P1363Length(P1363(r, s, w))
    ensures HalfR(P1363(r, s, w)) == r && HalfS(P1363(r, s, w)) == s
  {
    var bs := P1363(r, s, w);
    assert bs[..w] == FixedWidth(r, w) && bs[w..] == FixedWidth(s, w);
    FromFixedWidth(r, w);
    FromFixedWidth(s, w);
  }

  // The form that is taken for DER: a SEQUENCE of two minimal INTEGERs, anything after them, anything after it.
  predicate DerForm(sig: bytes, a: bytes, b: bytes, x: bytes, y: bytes) {
    && MinimalInteger(a) && MinimalInteger(b)
    && |a| < ASN1_LIMIT && |b| < ASN1_LIMIT && |Tlv(0x02, a) + (Tlv(0x02, b) + x)| < ASN1_LIMIT
    && sig == Tlv(0x30, Tlv(0x02, a) + (Tlv(0x02, b) + x)) + y
  }

  lemma ReadIntegerForm(bs: bytes) returns (body: bytes)
    requires ReadInteger(bs, ASN1_LIMIT).Some?
    ensures MinimalInteger(body) && |body| < ASN1_LIMIT && bs == Tlv(0x02, body) + ReadInteger(bs, ASN1_LIMIT).value.1
  {
    hide ReadElement, Tlv, MinimalInteger, IntegerValue;
    SmallTagOctet(bs, ASN1_LIMIT);
    ReadElementInverse(bs, ASN1_LIMIT);
    body := ReadElement(bs, ASN1_LIMIT).value.0.body;
  }

  lemma FormReadsInteger(body: bytes, rest: bytes)
    requires MinimalInteger(body) && |body| < ASN1_LIMIT
    ensures ReadInteger(Tlv(0x02, body) + rest, ASN1_LIMIT) == Some((IntegerValue(body), rest))
  {
    hide ReadElement, Tlv, MinimalInteger;
    ReadTlv(0x02, body, rest, ASN1_LIMIT);
  }

  lemma FormParses(sig: bytes, a: bytes, b: bytes, x: bytes, y: bytes)
    requires DerForm(sig, a, b, x, y)
    ensures ParsesAsAsn1(sig)
  {
    hide ReadElement, ReadInteger, Tlv, MinimalInteger;
    ReadTlv(0x30, Tlv(0x02, a) + (Tlv(0x02, b) + x), y, ASN1_LIMIT);
    FormReadsInteger(a, Tlv(0x02, b) + x);
    FormReadsInteger(b, x);
  }

  lemma ParsedForm(sig: bytes) returns (a: bytes, b: bytes, x: bytes, y: bytes)
    requires ParsesAsAsn1(sig)
    ensures DerForm(sig, a, b, x, y)
  {
    hide ReadElement, ReadInteger, Tlv, MinimalInteger;
    var e := ReadElement(sig, ASN1_LIMIT).value.0;
    SmallTagOctet(sig, ASN1_LIMIT);
    ReadElementInverse(sig, ASN1_LIMIT);
    a := ReadIntegerForm(e.body);
    var rest := ReadInteger(e.body, ASN1_LIMIT).value.1;
    b := ReadIntegerForm(rest);
    x, y := ReadInteger(rest, ASN1_LIMIT).value.1, ReadElement(sig, ASN1_LIMIT).value.1;
  }

  // Exactly such bytes are never tried as fixed-width ones.
  lemma ParsesIff(sig: bytes)
    ensures ParsesAsAsn1(sig) <==> exists a, b, x, y :: DerForm(sig, a, b, x, y)
  {
    hide ParsesAsAsn1, DerForm;
    if ParsesAsAsn1(sig) {
      var a, b, x, y := ParsedForm(sig);
    }
    if a, b, x, y :| DerForm(sig, a, b, x, y) {
      FormParses(sig, a, b, x, y);
    }
  }

  // What is taken for DER is accepted exactly when it is strictly two non-negative integers that pass the check.
  lemma Asn1Verdict(sig: bytes, check: Check)
    requires ParsesAsAsn1(sig)
    ensures VerifySignature(sig, check) == Valid <==>
            var pair := ReadSignature(sig);
            pair.Some? && pair.value.0 >= 0 && pair.value.1 >= 0 && check(pair.value.0, pair.value.1)
    ensures VerifySignature(sig, check) != Valid ==> VerifySignature(sig, check) == InvalidAsn1
  {
  }

  // What is taken for fixed width is accepted exactly when its halves are positive and pass the check.
  lemma RawVerdict(sig: bytes, check: Check)
    requires !ParsesAsAsn1(sig) && sig != [] && |sig| % 2 == 0 && |sig| <= 132
    ensures var r, s := FromBigEndian(sig[..|sig| / 2]), FromBigEndian(sig[|sig| / 2..]);
            && (VerifySignature(sig, check) == Valid <==> r > 0 && s > 0 && check(r, s))
            && (VerifySignature(sig, check) != Valid ==> VerifySignature(sig, check) == InvalidP1363)
  {
    hide ParsesAsAsn1, FromBigEndian;
    HalvesEncodable(sig);
    ReadSignatureOf(HalfR(sig), HalfS(sig));
  }

  // What is neither is refused for its length before any check: nothing, an odd number of bytes, more than 132.
  lemma LengthGuard(sig: bytes, check: Check)
    ensures VerifySignature(sig, check) == InvalidP1363Length <==>
            !ParsesAsAsn1(sig) && (sig == [] || |sig| % 2 == 1 || |sig| > 132)
  {
  }

  // Both encodings of (r, s) bring the curve check the same pair and so end in the same verdict,
  // unless the fixed-width bytes happen to read as DER themselves.
  lemma EncodingsAgree(r: nat, s: nat, w: nat, check: Check)
    requires 1 <= w <= 66 && r < Pow256(w) && s < Pow256(w)
    requires RejectsZero(check)
    requires !ParsesAsAsn1(P1363(r, s, w))
    ensures Encodable(r, s)
    ensures CheckedPair(DerSignature(r, s)) == Some((r, s))
    ensures r > 0 && s > 0 ==> CheckedPair(P1363(r, s, w)) == Some((r, s))
    ensures VerifySignature(DerSignature(r, s), check) == Valid <==> check(r, s)
    ensures VerifySignature(P1363(r, s, w), check) == Valid <==> check(r, s)
  {
    WidthBound(r, s, w);
    DerIsAsn1(r, s);
    P1363Halves(r, s, w);
  }

  // Exactness: fixed-width bytes that do read as DER never bring their own pair to the check.
  lemma CollisionChecksAnotherPair(r: nat, s: nat, w: nat)
    requires 1 <= w <= 66 && 0 < r < Pow256(w) && 0 < s < Pow256(w)
    ensures CheckedPair(P1363(r, s, w)) == Some((r, s)) <==> !ParsesAsAsn1(P1363(r, s, w))
  {
    WidthBound(r, s, w);
    DerIsAsn1(r, s);
    P1363Halves(r, s, w);
    var bs := P1363(r, s, w);
    if ParsesAsAsn1(bs) && Asn1Pair(bs) == Some((r, s)) {
      ReadSignatureInverse(bs);
      NotItsOwnDer(r, s, w);
    }
  }

  lemma ToFixedWidth(n: nat, w: nat)
    requires n < Pow256(w) && w > 0 && 0 < FixedWidth(n, w)[0] < 128
    ensures IntegerBody(n) == FixedWidth(n, w)
  {
    FromFixedWidth(n, w);
    ToFromBigEndian(FixedWidth(n, w));
  }

  // A non-zero byte at position i of the fixed-width form bounds the length of the DER contents.
  lemma TopPosition(n: nat, w: nat, i: nat)
    requires n < Pow256(w) && i < w && FixedWidth(n, w)[i] != 0
    ensures |IntegerBody(n)| > w - 1 - i
  {
    hide FixedWidth, FromBigEndian, ToBigEndian, Pow256;
    FromFixedWidth(n, w);
    FromBigEndianAtLeast(FixedWidth(n, w), i);
    var k := w - 1 - i;
    MultipleAtLeast(FixedWidth(n, w)[i], Pow256(k));
    ToBigEndianLength(n, k);
  }

  lemma MultipleAtLeast(b: nat, p: nat)
    requires b > 0
    ensures b * p >= p
  {
    assert b * p == p + (b - 1) * p;
  }

  // The bytes of a short signature: both headers, r, the tag of s.
  lemma SignatureLayout(r: nat, s: nat)
    requires Encodable(r, s) && |SignatureBody(r, s)| <= 154 && |IntegerBody(r)| < 128 && |IntegerBody(s)| < 128
    ensures var bs, a, b := DerSignature(r, s), |IntegerBody(r)|, |IntegerBody(s)|;
            var h := |bs| - 4 - a - b;
            && bs[0] == SEQUENCE
            && 2 <= h
            && |bs| == h + 4 + a + b
            && bs[h + 2 + a] == INTEGER
  {
    hide IntegerBody;
    var body := SignatureBody(r, s);
    assert |Tlv(INTEGER, IntegerBody(r))| == 2 + |IntegerBody(r)|;
    assert |Tlv(INTEGER, IntegerBody(s))| == 2 + |IntegerBody(s)|;
    var bs := DerSignature(r, s);
    assert bs[|bs| - |body|..] == body;
    assert body[2 + |IntegerBody(r)|] == INTEGER;
  }

  // The fixed-width form of two integers is never also their DER form: the first half would be r
  // itself, pushing the tag of s, which is not zero, into the leading zeros s would need.
  lemma NotItsOwnDer(r: nat, s: nat, w: nat)
    requires 1 <= w <= 66 && r < Pow256(w) && s < Pow256(w)
    requires Encodable(r, s)
    ensures P1363(r, s, w) != DerSignature(r, s)
  {
    hide DerSignature, SignatureBody, FromBigEndian, IntegerBody, ToBigEndian, FixedWidth, Pow256;
    var bs := P1363(r, s, w);
    if bs == DerSignature(r, s) {
      WidthBound(r, s, w);
      BodyWidth(r, w);
      BodyWidth(s, w);
      SignatureLayout(r, s);
      assert FixedWidth(r, w)[0] == SEQUENCE;
      ToFixedWidth(r, w);
      var h := 2 * w - 4 - w - |IntegerBody(s)|;
      assert FixedWidth(s, w)[h + 2] == bs[h + 2 + w] == INTEGER;
      TopPosition(s, w, h + 2);
    }
  }

  lemma BodyWidth(n: nat, w: nat)
    requires n < Pow256(w)
    ensures |IntegerBody(n)| <= w + 1
  {
    ToBigEndianLength(n, w);
  }

  lemma DerOfOnes()
    ensures IntegerBody(1) == [1]
    ensures DerSignature(1, 1) == [0x30, 0x06, 0x02, 0x01, 0x01, 0x02, 0x01, 0x01]
  {
    assert ToBigEndian(1) == [1] by {
      assert ToBigEndian(0) == [];
    }
    assert Tlv(INTEGER, IntegerBody(1)) == [2, 1, 1];
    assert SignatureBody(1, 1) == [2, 1, 1, 2, 1, 1];
  }

  // Such a collision exists: eight bytes meant as two four-byte halves are read as the pair (1, 1).
  lemma CollisionExample()
    ensures var bs: bytes := [0x30, 0x06, 0x02, 0x01, 0x01, 0x02, 0x01, 0x01];
            ParsesAsAsn1(bs) && CheckedPair(bs) == Some((1, 1)) && HalfR(bs) != 1
  {
    hide DerSignature, SignatureBody, IntegerBody, ReadElement, ReadInteger, ReadSignature;
    var bs: bytes := [0x30, 0x06, 0x02, 0x01, 0x01, 0x02, 0x01, 0x01];
    DerOfOnes();
    BodyWidth(1, 1);
    WidthBound(1, 1, 1);
    DerIsAsn1(1, 1);
    FromBigEndianAtLeast(bs[..4], 0);
  }
}
