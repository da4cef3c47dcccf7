/** DER INTEGERs (section 8.3 of X.690) and the two-integer ECDSA signature built from them
    (section 2.2.3 of RFC 3279). */
module DerInteger {
  import opened Wrappers
  import opened Bytes
  import opened Der

  const INTEGER: byte := 0x02
  const SEQUENCE: byte := 0x30

  // Minimal two's complement contents of a non-negative number.
  function IntegerBody(n: nat): (bs: bytes)
    ensures bs != []
  {
    if n == 0 then [0]
    else
      var b := ToBigEndian(n);
      ToBigEndianHasNoLeadingZero(n);
      if b[0] >= 128 then [0] + b else b
  }

  // Contents every DER reader here accepts: not empty, no redundant sign octet.
  predicate MinimalInteger(body: bytes) {
    && body != []
    && (|body| > 1 ==>
          && !(body[0] == 0 && body[1] < 128)
          && !(body[0] == 255 && body[1] >= 128))
  }

  function Complement(bs: bytes): bytes {
    seq(|bs|, i requires 0 <= i < |bs| => 255 - bs[i])
  }

  function IntegerValue(body: bytes): int
    requires body != []
  {
    if body[0] >= 128 then -(FromBigEndian(Complement(body)) + 1) else FromBigEndian(body)
  }

  // The two INTEGER elements of a signature, before the SEQUENCE around them.
  function SignatureBody(r: nat, s: nat): (bs: bytes)
    requires Encodable(r, s)
    ensures |bs| < INT_LIMIT
  {
    TlvBound(INTEGER, IntegerBody(r));
    TlvBound(INTEGER, IntegerBody(s));
    Tlv(INTEGER, IntegerBody(r)) + Tlv(INTEGER, IntegerBody(s))
  }

  function DerSignature(r: nat, s: nat): bytes
    requires Encodable(r, s)
  {
    Tlv(SEQUENCE, SignatureBody(r, s))
  }

  // The contents of both integers together fit half of Go's int.
  predicate Encodable(r: nat, s: nat) {
    |IntegerBody(r)| + |IntegerBody(s)| < 0x4000_0000_0000_0000
  }

  lemma IntegerBodyLength(half: bytes)
    ensures |IntegerBody(FromBigEndian(half))| <= |half| + 1
  {
    FromBigEndianBound(half);
    ToBigEndianLength(FromBigEndian(half), |half|);
  }

  // One INTEGER and what follows it.
  function ReadInteger(bs: bytes, limit: nat): (r: Option<(int, bytes)>)
  {
    match ReadElement(bs, limit)
    case None => None
    case Some((e, rest)) =>
      if e.cls == UNIVERSAL && !e.compound && e.tag == 2 && MinimalInteger(e.body)
      then Some((IntegerValue(e.body), rest))
      else None
  }

  // The strict reader: one SEQUENCE, all of the input, of two INTEGERs and nothing more.
  function ReadSignature(bs: bytes): Option<(int, int)> {
    match ReadElement(bs, CRYPTOBYTE_LIMIT)
    case None => None
    case Some((e, rest)) =>
      if !(e.cls == UNIVERSAL && e.compound && e.tag == 16) || rest != [] then None
      else
        match ReadInteger(e.body, CRYPTOBYTE_LIMIT)
        case None => None
        case Some((r, inner)) =>
          match ReadInteger(inner, CRYPTOBYTE_LIMIT)
          case None => None
          case Some((s, end)) => if end != [] then None else Some((r, s))
  }

  lemma {:induction false} FromLeadingZero(bs: bytes)
    ensures FromBigEndian([0] + bs) == FromBigEndian(bs)
  {
    if bs == [] {
      assert [0] + bs == [0];
      assert ([0] + bs)[..0] == [];
    } else {
      FromLeadingZero(bs[..|bs| - 1]);
      assert ([0] + bs)[..|bs|] == [0] + bs[..|bs| - 1];
    }
  }

  lemma IntegerRoundTrip(n: nat)
    ensures MinimalInteger(IntegerBody(n))
    ensures IntegerValue(IntegerBody(n)) == n
  {
    if n == 0 {
      FromLeadingZero([]);
      assert [0] + [] == IntegerBody(n);
    } else {
      FromToBigEndian(n);
      FromLeadingZero(ToBigEndian(n));
      ToBigEndianHasNoLeadingZero(n);
    }
  }

  // Minimal contents of a non-negative value are the only ones.
  lemma IntegerUnique(body: bytes)
    requires MinimalInteger(body) && IntegerValue(body) >= 0
    ensures body == IntegerBody(IntegerValue(body))
  {
    var n := FromBigEndian(body);
    ToFromBigEndian(body);
    if body[0] != 0 {
      assert StripZeros(body) == body;
    } else if |body| == 1 {
      assert body == [0];
      assert StripZeros([0][1..]) == [];
    } else {
      assert StripZeros(body) == StripZeros(body[1..]) == body[1..];
      assert body == [0] + body[1..];
    }
  }

  lemma ReadIntegerOf(n: nat, rest: bytes, limit: nat)
    requires |IntegerBody(n)| < limit <= INT_LIMIT
    requires 128 <= limit
    ensures ReadInteger(Tlv(INTEGER, IntegerBody(n)) + rest, limit) == Some((n, rest))
  {
    hide IntegerBody, Tlv, ReadElement, MinimalInteger, IntegerValue;
    ReadTlv(INTEGER, IntegerBody(n), rest, limit);
    IntegerRoundTrip(n);
  }

  lemma ReadSignatureOf(r: nat, s: nat)
    requires Encodable(r, s)
    ensures ReadSignature(DerSignature(r, s)) ==
            if |SignatureBody(r, s)| < 0xFFFF_FFFA then Some((r, s)) else None
  {
    hide Tlv, ReadElement, ReadInteger, IntegerBody;
    var body := SignatureBody(r, s);
    ReadTlv(SEQUENCE, body, [], CRYPTOBYTE_LIMIT);
    assert DerSignature(r, s) + [] == DerSignature(r, s);
    if |body| < CRYPTOBYTE_LIMIT {
      var sTlv := Tlv(INTEGER, IntegerBody(s));
      ReadIntegerOf(r, sTlv, CRYPTOBYTE_LIMIT);
      ReadIntegerOf(s, [], CRYPTOBYTE_LIMIT);
      assert sTlv + [] == sTlv;
    }
  }

  // Non-negative integers accepted strictly were encoded in no other way.
  lemma ReadSignatureInverse(bs: bytes)
    requires ReadSignature(bs).Some?
    requires ReadSignature(bs).value.0 >= 0 && ReadSignature(bs).value.1 >= 0
    ensures var (r, s) := ReadSignature(bs).value;
            Encodable(r, s) && bs == DerSignature(r, s)
  {
    var (e, _) := ReadElement(bs, CRYPTOBYTE_LIMIT).value;
    SmallTagOctet(bs, CRYPTOBYTE_LIMIT);
    ReadElementInverse(bs, CRYPTOBYTE_LIMIT);
    assert bs == Tlv(SEQUENCE, e.body) + [];
    var (r, inner) := ReadInteger(e.body, CRYPTOBYTE_LIMIT).value;
    var (s, end) := ReadInteger(inner, CRYPTOBYTE_LIMIT).value;
    ReadIntegerInverse(e.body, CRYPTOBYTE_LIMIT);
    ReadIntegerInverse(inner, CRYPTOBYTE_LIMIT);
    assert inner == Tlv(INTEGER, IntegerBody(s)) + [];
    assert inner == Tlv(INTEGER, IntegerBody(s));
  }

  lemma ReadIntegerInverse(bs: bytes, limit: nat)
    requires 128 <= limit <= 0x1_0000_0000
    requires ReadInteger(bs, limit).Some? && ReadInteger(bs, limit).value.0 >= 0
    ensures var (n, rest) := ReadInteger(bs, limit).value;
            |IntegerBody(n)| < limit && bs == Tlv(INTEGER, IntegerBody(n)) + rest
  {
    var (e, rest) := ReadElement(bs, limit).value;
    SmallTagOctet(bs, limit);
    ReadElementInverse(bs, limit);
    IntegerUnique(e.body);
  }

  // ----- what the contents of any sign mean

  // Two's complement: the octets as a natural, less a full turn when the first bit is set.
  lemma TwosComplement(body: bytes)
    requires body != []
    ensures IntegerValue(body) == FromBigEndian(body) - if body[0] >= 0x80 then Pow256(|body|) else 0
  {
    ComplementValue(body);
  }

  lemma {:induction false} ComplementValue(bs: bytes)
    ensures FromBigEndian(Complement(bs)) + FromBigEndian(bs) + 1 == Pow256(|bs|)
  {
    if bs == [] {
    } else {
      var init, last := bs[..|bs| - 1], bs[|bs| - 1];
      ComplementValue(init);
      assert Complement(bs)[..|bs| - 1] == Complement(init);
    }
  }

  // Contents are minimal exactly when the value changes if the first octet is dropped.
  lemma MinimalIff(body: bytes)
    requires body != []
    ensures MinimalInteger(body) <==> |body| == 1 || IntegerValue(body[1..]) != IntegerValue(body)
  {
    if |body| > 1 {
      hide IntegerValue, FromBigEndian, Pow256;
      var v, p := FromBigEndian(body[1..]), Pow256(|body| - 1);
      TwosComplement(body);
      TwosComplement(body[1..]);
      TopPlace(body);
      FromBigEndianBound(body[1..]);
      TopOctet(body[0], body[1], v, p);
    }
  }

  lemma {:induction false} TopPlace(body: bytes)
    requires body != []
    ensures FromBigEndian(body) == body[0] * Pow256(|body| - 1) + FromBigEndian(body[1..])
    ensures Pow256(|body|) == 256 * Pow256(|body| - 1)
  {
    if |body| == 1 {
      assert body[..0] == [] && body[1..] == [];
      assert Pow256(0) == 1;
    } else {
      var n := |body| - 1;
      TopPlace(body[..n]);
      assert body[..n][1..] == body[1..][..n - 1];
      assert Pow256(n) == 256 * Pow256(n - 1);
      calc {
        FromBigEndian(body);
        256 * (body[0] * Pow256(n - 1) + FromBigEndian(body[..n][1..])) + body[n];
        body[0] * (256 * Pow256(n - 1)) + (256 * FromBigEndian(body[1..][..n - 1]) + body[n]);
      }
    }
  }

  lemma TopOctet(b: byte, b1: byte, v: nat, p: nat)
    requires v < p
    ensures (b * p + v - (if b >= 0x80 then 256 * p else 0) == v - (if b1 >= 0x80 then p else 0)) <==>
            (b == 0 && b1 < 0x80) || (b == 255 && b1 >= 0x80)
  {
    var k: int, q: int := b as int - (if b >= 0x80 then 256 else 0) + (if b1 >= 0x80 then 1 else 0), p;
    assert b * p + v - (if b >= 0x80 then 256 * p else 0) - (v - (if b1 >= 0x80 then p else 0)) == k * q;
    if k > 0 {
      assert k * q >= q;
    } else if k < 0 {
      assert k * q <= -q;
    }
  }
}
