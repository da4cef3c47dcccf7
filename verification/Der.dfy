/** Tag-length-value encoding in DER (sections 8.1.2, 8.1.3 and 10.1 of X.690), with the length
    limit of the reader as a parameter: encoding/asn1 and cryptobyte differ in nothing else here. */
module Der {
  import opened Wrappers
  import opened Bytes

  // encoding/asn1 refuses to shift a length that already reaches 2^23.
  const ASN1_LIMIT: nat := 0x8000_0000
  // cryptobyte takes four length octets and refuses header plus contents beyond 32 bits.
  const CRYPTOBYTE_LIMIT: nat := 0xFFFF_FFFA
  // Go's int bounds the length of every slice.
  const INT_LIMIT: nat := 0x8000_0000_0000_0000

  const UNIVERSAL := 0
  const CONTEXT_SPECIFIC := 2

  datatype Header = Header(cls: nat, compound: bool, tag: nat, length: nat)

  datatype Element = Element(cls: nat, compound: bool, tag: nat, body: bytes, full: bytes)

  // ----- printing

  function EncodeLength(n: nat): (bs: bytes)
    requires n < INT_LIMIT
    ensures bs != []
  {
    if n < 128 then [n]
    else
      ToBigEndianLength(n, 8);
      [128 + |ToBigEndian(n)|] + ToBigEndian(n)
  }

  // Section 8.1.3 of X.690: the number itself, or how many octets it takes and those octets.
  lemma LengthLayout(n: nat)
    requires n < 0x1_0000
    ensures EncodeLength(n) ==
            if n < 0x80 then [n] else if n < 0x100 then [0x81, n] else [0x82, n / 0x100, n % 0x100]
  {
    assert ToBigEndian(0) == [];
    if 0 < n {
      assert ToBigEndian(n) == ToBigEndian(n / 256) + [n % 256];
    }
    if 256 <= n {
      assert ToBigEndian(n / 256) == ToBigEndian(n / 256 / 256) + [n / 256 % 256];
    }
  }

  // An element whose identifier is the single octet id.
  function Tlv(id: byte, body: bytes): (bs: bytes)
    requires |body| < INT_LIMIT
    ensures |bs| > |body|
  {
    [id] + EncodeLength(|body|) + body
  }

  lemma TlvBound(id: byte, body: bytes)
    requires |body| < INT_LIMIT
    ensures |Tlv(id, body)| <= |body| + 10
  {
    ToBigEndianLength(|body|, 8);
  }

  // ----- reading

  // A base-128 integer: at most five octets, no leading zero septet, and a value within 31 bits.
  function ReadBase128(bs: bytes): (r: Option<(nat, bytes)>)
    ensures r.Some? ==> |r.value.1| < |bs|
  {
    if bs != [] && bs[0] == 128 then None else ReadSeptets(bs, 0, 0)
  }

  function ReadSeptets(bs: bytes, acc: nat, shifted: nat): (r: Option<(nat, bytes)>)
    ensures r.Some? ==> |r.value.1| < |bs|
  {
    if bs == [] || shifted == 5 then None
    else
      var acc' := acc * 128 + bs[0] % 128;
      if bs[0] >= 128 then ReadSeptets(bs[1..], acc', shifted + 1)
      else if acc' < 0x8000_0000 then Some((acc', bs[1..]))
      else None
  }

  // k further length octets on top of the value read so far.
  function ReadLengthOctets(bs: bytes, k: nat, acc: nat, limit: nat): (r: Option<(nat, bytes)>)
    ensures r.Some? ==> |r.value.1| <= |bs|
    ensures r.Some? && (k > 0 || acc < limit) ==> r.value.0 < limit
    decreases k
  {
    if k == 0 then Some((acc, bs))
    else if bs == [] then None
    else
      var acc' := acc * 256 + bs[0];
      if acc' >= limit || acc' == 0 then None else ReadLengthOctets(bs[1..], k - 1, acc', limit)
  }

  function ReadLength(bs: bytes, limit: nat): (r: Option<(nat, bytes)>)
    ensures r.Some? ==> |r.value.1| < |bs|
  {
    if bs == [] then None
    else if bs[0] < 128 then Some((bs[0], bs[1..]))
    else if bs[0] == 128 then None
    else
      match ReadLengthOctets(bs[1..], bs[0] - 128, 0, limit)
      case Some((n, rest)) => if n < 128 then None else Some((n, rest))
      case None => None
  }

  function ReadTag(bs: bytes): (r: Option<(nat, bytes)>)
    requires bs != []
    ensures r.Some? ==> |r.value.1| < |bs|
  {
    if bs[0] % 32 != 31 then Some((bs[0] % 32, bs[1..]))
    else
      match ReadBase128(bs[1..])
      case Some((tag, rest)) => if tag < 31 then None else Some((tag, rest))
      case None => None
  }

  function ReadHeader(bs: bytes, limit: nat): (r: Option<(Header, bytes)>)
    ensures r.Some? ==> |r.value.1| < |bs|
  {
    if bs == [] then None
    else
      match ReadTag(bs)
      case None => None
      case Some((tag, rest)) =>
        match ReadLength(rest, limit)
        case None => None
        case Some((n, rest')) => Some((Header(bs[0] / 64, bs[0] / 32 % 2 == 1, tag, n), rest'))
  }

  function ReadElement(bs: bytes, limit: nat): (r: Option<(Element, bytes)>)
    ensures r.Some? ==> |r.value.1| < |bs|
    ensures r.Some? ==> r.value.0.full == bs[..|bs| - |r.value.1|] && r.value.1 == bs[|bs| - |r.value.1|..]
  {
    match ReadHeader(bs, limit)
    case None => None
    case Some((h, rest)) =>
      if h.length > |rest| then None
      else
        var after := rest[h.length..];
        HeaderSuffix(bs, limit);
        Some((Element(h.cls, h.compound, h.tag, rest[..h.length], bs[..|bs| - |after|]), after))
  }

  // ----- every reader leaves a suffix of what it was given

  predicate IsSuffix(rest: bytes, bs: bytes) {
    |rest| <= |bs| && rest == bs[|bs| - |rest|..]
  }

  lemma {:induction false} SeptetsSuffix(bs: bytes, acc: nat, shifted: nat)
    ensures ReadSeptets(bs, acc, shifted).Some? ==> IsSuffix(ReadSeptets(bs, acc, shifted).value.1, bs)
  {
    if bs == [] || shifted == 5 || bs[0] < 128 {
    } else {
      SeptetsSuffix(bs[1..], acc * 128 + bs[0] % 128, shifted + 1);
    }
  }

  lemma {:induction false} LengthOctetsSuffix(bs: bytes, k: nat, acc: nat, limit: nat)
    ensures ReadLengthOctets(bs, k, acc, limit).Some? ==>
              IsSuffix(ReadLengthOctets(bs, k, acc, limit).value.1, bs)
  {
    if k == 0 || bs == [] {
    } else {
      var acc' := acc * 256 + bs[0];
      if acc' < limit && acc' != 0 {
        LengthOctetsSuffix(bs[1..], k - 1, acc', limit);
      }
    }
  }

  lemma TagSuffix(bs: bytes)
    requires bs != [] && ReadTag(bs).Some?
    ensures IsSuffix(ReadTag(bs).value.1, bs)
  {
    SeptetsSuffix(bs[1..], 0, 0);
  }

  lemma LengthSuffix(bs: bytes, limit: nat)
    requires ReadLength(bs, limit).Some?
    ensures IsSuffix(ReadLength(bs, limit).value.1, bs)
  {
    if bs[0] > 128 {
      LengthOctetsSuffix(bs[1..], bs[0] - 128, 0, limit);
    }
  }

  lemma HeaderSuffix(bs: bytes, limit: nat)
    ensures ReadHeader(bs, limit).Some? ==> IsSuffix(ReadHeader(bs, limit).value.1, bs)
  {
    if ReadHeader(bs, limit).Some? {
      TagSuffix(bs);
      LengthSuffix(ReadTag(bs).value.1, limit);
    }
  }

  // ----- a printed element reads back as itself, exactly when its length is below the limit

  lemma {:induction false} LengthOctetsOf(os: bytes, acc: nat, rest: bytes, limit: nat)
    requires acc > 0 || (os != [] && os[0] != 0)
    requires acc < limit
    ensures ReadLengthOctets(os + rest, |os|, acc, limit) ==
            var n := Shifted(acc, |os|) + FromBigEndian(os);
            if n < limit then Some((n, rest)) else None
  {
    if os == [] {
      assert os + rest == rest;
    } else {
      var acc' := acc * 256 + os[0];
      ShiftOctet(acc, os);
      assert (os + rest)[1..] == os[1..] + rest;
      if acc' < limit {
        LengthOctetsOf(os[1..], acc', rest, limit);
      }
    }
  }

  function Shifted(acc: nat, k: nat): (n: nat)
    ensures acc <= n
    ensures acc == 0 ==> n == 0
    decreases k
  {
    if k == 0 then acc else Shifted(acc * 256, k - 1)
  }

  lemma {:induction false} ShiftedAdd(a: nat, b: nat, k: nat)
    ensures Shifted(a + b, k) == Shifted(a, k) + Shifted(b, k)
    decreases k
  {
    if k == 0 {
    } else {
      ShiftedAdd(a * 256, b * 256, k - 1);
    }
  }

  lemma {:induction false} ShiftedTimes(a: nat, k: nat)
    ensures Shifted(a, k) * 256 == Shifted(a * 256, k)
    decreases k
  {
    if k == 0 {
    } else {
      ShiftedTimes(a * 256, k - 1);
    }
  }

  lemma {:induction false} FromBigEndianCons(os: bytes)
    requires os != []
    ensures FromBigEndian(os) == Shifted(os[0], |os| - 1) + FromBigEndian(os[1..])
  {
    if |os| > 1 {
      var init := os[..|os| - 1];
      FromBigEndianCons(init);
      assert init[1..] == os[1..][..|os| - 2];
      ShiftedTimes(os[0], |os| - 2);
    } else {
      assert os[..0] == [];
    }
  }

  lemma ShiftOctet(acc: nat, os: bytes)
    requires os != []
    ensures Shifted(acc, |os|) + FromBigEndian(os) == Shifted(acc * 256 + os[0], |os| - 1) + FromBigEndian(os[1..])
  {
    hide FromBigEndian;
    var k, x := |os| - 1, acc * 256;
    FromBigEndianCons(os);
    assert Shifted(acc, k + 1) == Shifted(x, k);
    ShiftedAdd(x, os[0], k);
  }

  lemma ReadEncodedLength(n: nat, rest: bytes, limit: nat)
    requires n < INT_LIMIT
    requires 128 <= limit
    ensures ReadLength(EncodeLength(n) + rest, limit) == if n < limit then Some((n, rest)) else None
  {
    var bs := EncodeLength(n) + rest;
    if n < 128 {
      assert bs[1..] == rest;
    } else {
      var os := ToBigEndian(n);
      ToBigEndianHasNoLeadingZero(n);
      FromToBigEndian(n);
      assert bs[1..] == os + rest;
      LengthOctetsOf(os, 0, rest, limit);
    }
  }

  // Reading an element printed with a low tag number, whatever follows it.
  // A header with any length, whatever follows.
  lemma ReadHeaderOf(id: byte, n: nat, rest: bytes, limit: nat)
    requires 128 <= limit && n < limit && n < INT_LIMIT && id % 32 != 31
    ensures ReadHeader([id] + EncodeLength(n) + rest, limit) ==
            Some((Header(id / 64, id / 32 % 2 == 1, id % 32, n), rest))
  {
    hide ReadLength, EncodeLength;
    ReadEncodedLength(n, rest, limit);
    assert ([id] + EncodeLength(n) + rest)[1..] == EncodeLength(n) + rest;
  }

  // A tag below 31 was read from one octet, which class, form and tag determine.
  lemma HeaderOctet(bs: bytes, limit: nat)
    requires ReadHeader(bs, limit).Some? && ReadHeader(bs, limit).value.0.tag < 31
    ensures var h := ReadHeader(bs, limit).value.0;
            bs[0] % 32 != 31 && bs[0] == h.cls * 64 + (if h.compound then 32 else 0) + h.tag
  {
    assert bs[0] == bs[0] / 64 * 64 + bs[0] / 32 % 2 * 32 + bs[0] % 32;
  }

  lemma SmallTagOctet(bs: bytes, limit: nat)
    requires ReadElement(bs, limit).Some? && ReadElement(bs, limit).value.0.tag < 31
    ensures var e := ReadElement(bs, limit).value.0;
            bs[0] % 32 != 31 && bs[0] == e.cls * 64 + (if e.compound then 32 else 0) + e.tag
  {
    hide ReadHeader;
    HeaderOctet(bs, limit);
  }

  lemma ReadTlvHeader(id: byte, body: bytes, rest: bytes, limit: nat)
    requires |body| < INT_LIMIT
    requires 128 <= limit
    requires id % 32 != 31
    ensures ReadHeader(Tlv(id, body) + rest, limit) ==
            if |body| < limit then Some((Header(id / 64, id / 32 % 2 == 1, id % 32, |body|), body + rest)) else None
  {
    var bs := Tlv(id, body) + rest;
    assert bs[1..] == EncodeLength(|body|) + (body + rest);
    ReadEncodedLength(|body|, body + rest, limit);
  }

  lemma ReadTlv(id: byte, body: bytes, rest: bytes, limit: nat)
    requires |body| < INT_LIMIT
    requires 128 <= limit
    requires id % 32 != 31
    ensures ReadElement(Tlv(id, body) + rest, limit) ==
            if |body| < limit
            then Some((Element(id / 64, id / 32 % 2 == 1, id % 32, body, Tlv(id, body)), rest))
            else None
  {
    ReadTlvHeader(id, body, rest, limit);
    if |body| < limit {
      assert (body + rest)[|body|..] == rest;
      assert (body + rest)[..|body|] == body;
      var bs := Tlv(id, body) + rest;
      assert bs[..|bs| - |rest|] == Tlv(id, body);
    }
  }

  // The other direction: an accepted element with a one-octet identifier is the printed one.
  lemma {:induction false} LengthOctetsInverse(bs: bytes, k: nat, acc: nat, limit: nat)
    requires ReadLengthOctets(bs, k, acc, limit).Some?
    ensures var (n, rest) := ReadLengthOctets(bs, k, acc, limit).value;
            && k <= |bs|
            && rest == bs[k..]
            && n == Shifted(acc, k) + FromBigEndian(bs[..k])
            && (acc == 0 && k > 0 ==> bs[0] != 0)
  {
    if k > 0 {
      LengthOctetsInverse(bs[1..], k - 1, acc * 256 + bs[0], limit);
      ShiftOctet(acc, bs[..k]);
      assert bs[..k][1..] == bs[1..][..k - 1];
    } else {
      assert bs[..0] == [];
    }
  }

  lemma ReadLengthInverse(bs: bytes, limit: nat)
    requires ReadLength(bs, limit).Some?
    requires 128 <= limit <= INT_LIMIT
    ensures var (n, rest) := ReadLength(bs, limit).value;
            && n < limit
            && bs == EncodeLength(n) + rest
  {
    var (n, rest) := ReadLength(bs, limit).value;
    if bs[0] >= 128 {
      var k := bs[0] - 128;
      LengthOctetsInverse(bs[1..], k, 0, limit);
      var os := bs[1..][..k];
      ToFromBigEndian(os);
      assert StripZeros(os) == os;
      assert bs == [bs[0]] + os + rest;
    }
  }

  lemma ReadHeaderInverse(bs: bytes, limit: nat)
    requires ReadHeader(bs, limit).Some?
    requires 128 <= limit <= INT_LIMIT
    requires bs[0] % 32 != 31
    ensures var (h, after) := ReadHeader(bs, limit).value;
            && h == Header(bs[0] / 64, bs[0] / 32 % 2 == 1, bs[0] % 32, h.length)
            && h.length < limit
            && bs == [bs[0]] + EncodeLength(h.length) + after
  {
    ReadLengthInverse(bs[1..], limit);
    assert bs == [bs[0]] + bs[1..];
  }

  lemma ReadElementInverse(bs: bytes, limit: nat)
    requires ReadElement(bs, limit).Some?
    requires 128 <= limit <= INT_LIMIT
    requires bs[0] % 32 != 31
    ensures var (e, rest) := ReadElement(bs, limit).value;
            && |e.body| < limit
            && bs == Tlv(bs[0], e.body) + rest
            && e == Element(bs[0] / 64, bs[0] / 32 % 2 == 1, bs[0] % 32, e.body, Tlv(bs[0], e.body))
  {
    hide EncodeLength, ReadHeader;
    ReadHeaderInverse(bs, limit);
    var (e, rest) := ReadElement(bs, limit).value;
    var (h, after) := ReadHeader(bs, limit).value;
    var front := [bs[0]] + EncodeLength(h.length);
    assert after == e.body + rest;
    SplitFull(bs, front, e.body, rest);
  }

  lemma SplitFull(bs: bytes, front: bytes, body: bytes, rest: bytes)
    requires bs == front + (body + rest)
    ensures bs == (front + body) + rest
    ensures bs[..|bs| - |rest|] == front + body
  {
  }

  // ----- the readers look at nothing beyond what they consume

  lemma {:induction false} SeptetsLocal(bs: bytes, acc: nat, shifted: nat, more: bytes)
    requires ReadSeptets(bs, acc, shifted).Some?
    ensures var (n, rest) := ReadSeptets(bs, acc, shifted).value;
            ReadSeptets(bs[..|bs| - |rest|] + more, acc, shifted) == Some((n, more))
  {
    var (n, rest) := ReadSeptets(bs, acc, shifted).value;
    var own := bs[..|bs| - |rest|];
    assert (own + more)[1..] == own[1..] + more;
    if bs[0] >= 128 {
      SeptetsLocal(bs[1..], acc * 128 + bs[0] % 128, shifted + 1, more);
      assert own[1..] == bs[1..][..|bs| - 1 - |rest|];
    } else {
      assert own[1..] == [];
    }
  }

  lemma {:induction false} LengthOctetsLocal(bs: bytes, k: nat, acc: nat, limit: nat, more: bytes)
    requires ReadLengthOctets(bs, k, acc, limit).Some?
    ensures var (n, rest) := ReadLengthOctets(bs, k, acc, limit).value;
            ReadLengthOctets(bs[..|bs| - |rest|] + more, k, acc, limit) == Some((n, more))
  {
    var (n, rest) := ReadLengthOctets(bs, k, acc, limit).value;
    var own := bs[..|bs| - |rest|];
    if k > 0 {
      LengthOctetsLocal(bs[1..], k - 1, acc * 256 + bs[0], limit, more);
      assert own[1..] == bs[1..][..|bs| - 1 - |rest|];
      assert (own + more)[1..] == own[1..] + more;
    } else {
      assert own + more == more;
    }
  }

  lemma TagLocal(bs: bytes, more: bytes)
    requires bs != [] && ReadTag(bs).Some?
    ensures var (n, rest) := ReadTag(bs).value;
            ReadTag(bs[..|bs| - |rest|] + more) == Some((n, more))
  {
    var (n, rest) := ReadTag(bs).value;
    var own := bs[..|bs| - |rest|];
    assert (own + more)[1..] == own[1..] + more;
    if bs[0] % 32 == 31 {
      SeptetsLocal(bs[1..], 0, 0, more);
      assert own[1..] == bs[1..][..|bs| - 1 - |rest|];
    } else {
      assert own[1..] == [];
    }
  }

  lemma LengthLocal(bs: bytes, limit: nat, more: bytes)
    requires ReadLength(bs, limit).Some?
    ensures var (n, rest) := ReadLength(bs, limit).value;
            ReadLength(bs[..|bs| - |rest|] + more, limit) == Some((n, more))
  {
    var (n, rest) := ReadLength(bs, limit).value;
    var own := bs[..|bs| - |rest|];
    assert (own + more)[1..] == own[1..] + more;
    if bs[0] >= 128 {
      LengthOctetsLocal(bs[1..], bs[0] - 128, 0, limit, more);
      assert own[1..] == bs[1..][..|bs| - 1 - |rest|];
    } else {
      assert own[1..] == [];
    }
  }

  lemma HeaderLocal(bs: bytes, limit: nat, more: bytes)
    requires ReadHeader(bs, limit).Some?
    ensures var (h, rest) := ReadHeader(bs, limit).value;
            ReadHeader(bs[..|bs| - |rest|] + more, limit) == Some((h, more))
  {
    var (tag, after) := ReadTag(bs).value;
    var (n, rest) := ReadLength(after, limit).value;
    TagSuffix(bs);
    LengthSuffix(after, limit);
    var front, mid := bs[..|bs| - |after|], after[..|after| - |rest|];
    LengthLocal(after, limit, more);
    TagLocal(bs, mid + more);
    hide ReadTag, ReadLength;
    assert bs[..|bs| - |rest|] == front + mid;
    assert bs[..|bs| - |rest|] + more == front + (mid + more);
  }

  // An element standing alone reads the same in front of anything, and what was read stands alone.
  predicate Standalone(e: Element, limit: nat) {
    ReadElement(e.full, limit) == Some((e, []))
  }

  lemma ElementLocal(bs: bytes, limit: nat, more: bytes)
    requires ReadElement(bs, limit).Some?
    ensures var (e, rest) := ReadElement(bs, limit).value;
            && bs == e.full + rest
            && ReadElement(e.full + more, limit) == Some((e, more))
            && Standalone(e, limit)
  {
    var (e, rest) := ReadElement(bs, limit).value;
    var (h, after) := ReadHeader(bs, limit).value;
    HeaderSuffix(bs, limit);
    var own := bs[..|bs| - |after|];
    assert e.full == own + e.body;
    forall m: bytes
      ensures ReadElement(e.full + m, limit) == Some((e, m))
    {
      HeaderLocal(bs, limit, e.body + m);
      assert e.full + m == own + (e.body + m);
      assert (e.body + m)[..h.length] == e.body;
      assert (e.body + m)[h.length..] == m;
      assert (e.full + m)[..|e.full + m| - |m|] == e.full;
    }
    assert e.full + [] == e.full;
  }

  lemma StandaloneReads(e: Element, limit: nat, more: bytes)
    requires Standalone(e, limit)
    ensures ReadElement(e.full + more, limit) == Some((e, more))
  {
    ElementLocal(e.full, limit, more);
  }

  // ----- a byte string as a list of elements

  function Concat(es: seq<Element>): bytes {
    if es == [] then [] else es[0].full + Concat(es[1..])
  }

  function Elements(bs: bytes, limit: nat): Option<seq<Element>>
    decreases |bs|
  {
    if bs == [] then Some([])
    else
      match ReadElement(bs, limit)
      case None => None
      case Some((e, rest)) =>
        match Elements(rest, limit)
        case None => None
        case Some(es) => Some([e] + es)
  }

  predicate AllStandalone(es: seq<Element>, limit: nat) {
    forall i :: 0 <= i < |es| ==> Standalone(es[i], limit)
  }

  // The split into elements is the only one there is.
  lemma {:induction false} ElementsIff(bs: bytes, es: seq<Element>, limit: nat)
    ensures Elements(bs, limit) == Some(es) <==> bs == Concat(es) && AllStandalone(es, limit)
    decreases |bs|
  {
    hide ReadElement;
    if es == [] || bs == [] {
      if es != [] && bs == Concat(es) && AllStandalone(es, limit) {
        StandaloneReads(es[0], limit, []);
      }
    } else {
      if ReadElement(bs, limit).Some? {
        var (e, rest) := ReadElement(bs, limit).value;
        ElementLocal(bs, limit, []);
        ElementsIff(rest, es[1..], limit);
        if Elements(bs, limit) == Some(es) {
          var rests := Elements(rest, limit).value;
          assert es == [e] + rests;
          assert es[1..] == rests;
        }
      }
      if bs == Concat(es) && AllStandalone(es, limit) {
        StandaloneReads(es[0], limit, Concat(es[1..]));
        assert es == [es[0]] + es[1..];
      }
    }
  }
}
