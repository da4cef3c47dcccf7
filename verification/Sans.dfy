/** pkg/cryptoutils/sans.go: the OtherName subject alternative name, printed and scanned. */
module Sans {
  import opened Wrappers
  import opened Bytes
  import opened Der
  import opened Oid
  import Bmp
  import Utf8

  const OID_OTHER_NAME: oid := [1, 3, 6, 1, 4, 1, 57264, 1, 7]
  const SAN_OID: oid := [2, 5, 29, 17]

  // Identifier octets: universal SEQUENCE, OBJECT IDENTIFIER and UTF8String, and the constructed [0].
  const SEQUENCE: byte := 0x30
  const OBJECT_IDENTIFIER: byte := 0x06
  const UTF8_STRING: byte := 0x0C
  const CONTEXT_0: byte := 0xA0

  datatype Extension = Extension(id: oid, critical: bool, value: bytes)

  datatype OtherName = OtherName(id: oid, value: bytes)

  datatype SanError =
    | MalformedElement
    | TrailingData
    | BadSequence
    | BadOtherName
    | UnexpectedOid
    | NoOtherName
    | SeveralOtherNames

  // ----- printing

  const NAME_LIMIT: nat := 0x4000_0000_0000_0000

  // The OID element and the explicitly tagged string: the contents of an OtherName.
  function OtherNameBody(name: bytes): bytes
    requires |name| < NAME_LIMIT
  {
    TlvBound(UTF8_STRING, name);
    OidOctets();
    Tlv(OBJECT_IDENTIFIER, EncodeOid(OID_OTHER_NAME)) + Tlv(CONTEXT_0, Tlv(UTF8_STRING, name))
  }

  function MarshalOtherName(name: bytes): bytes
    requires |name| < NAME_LIMIT
  {
    OtherNameSize(name);
    Tlv(CONTEXT_0, OtherNameBody(name))
  }

  function MarshalOtherNameSAN(name: bytes, critical: bool): Extension
    requires |name| < NAME_LIMIT
  {
    OtherNameSize(name);
    TlvBound(CONTEXT_0, OtherNameBody(name));
    Extension(SAN_OID, critical, Tlv(SEQUENCE, MarshalOtherName(name)))
  }

  lemma TlvSize(id: byte, body: bytes)
    requires |body| < INT_LIMIT
    ensures |Tlv(id, body)| == |body| + if |body| < 128 then 2 else 2 + |ToBigEndian(|body|)|
  {
  }

  lemma {:induction false} SmallArcs(arcs: bytes, rest: seq<nat>)
    requires forall i :: 0 <= i < |arcs| ==> arcs[i] < 128
    ensures EncodeArcs(arcs + rest) == arcs + EncodeArcs(rest)
  {
    if arcs == [] {
      assert arcs + rest == rest;
    } else {
      SmallArcs(arcs[1..], rest);
      assert (arcs + rest)[1..] == arcs[1..] + rest;
      assert HighSeptets(arcs[0] / 128) == [];
    }
  }

  lemma HighSeptetsZero()
    ensures HighSeptets(0) == []
  {
  }

  lemma HighSeptetsStep(high: nat, low: nat)
    requires low < 128 && high + low > 0
    ensures HighSeptets(128 * high + low) == HighSeptets(high) + [128 + low]
  {
    assert (128 * high + low) / 128 == high && (128 * high + low) % 128 == low;
  }

  lemma FulcioSeptets()
    ensures EncodeBase128(57264) == [0x83, 0xBF, 0x30]
  {
    hide HighSeptets;
    HighSeptetsZero();
    HighSeptetsStep(0, 3);
    HighSeptetsStep(3, 63);
  }

  lemma FulcioArc(rest: seq<nat>)
    ensures EncodeArcs([57264] + rest) == [0x83, 0xBF, 0x30] + EncodeArcs(rest)
  {
    hide EncodeBase128;
    assert ([57264] + rest)[1..] == rest;
    FulcioSeptets();
  }

  // The content octets documented byte by byte in the tests of the repository.
  lemma OidOctets()
    ensures EncodeOid(OID_OTHER_NAME) == [0x2B, 0x06, 0x01, 0x04, 0x01, 0x83, 0xBF, 0x30, 0x01, 0x07]
  {
    var front: bytes, back: bytes := [43, 6, 1, 4, 1], [1, 7];
    var tail: seq<nat> := [57264, 1, 7];
    SmallArcs(back, []);
    assert back + [] == back;
    FulcioArc([1, 7]);
    assert [57264] + [1, 7] == tail;
    SmallArcs(front, tail);
    assert [40 * 1 + 3] + OID_OTHER_NAME[2..] == front + tail;
    assert EncodeArcs([]) == [];
  }

  // The whole encoding of a short name, element by element, as documented there for one of fifteen octets.
  lemma ShortLayout(name: bytes, critical: bool)
    requires |name| < 110
    ensures MarshalOtherNameSAN(name, critical).id == [2, 5, 29, 17]
    ensures MarshalOtherNameSAN(name, critical).critical == critical
    ensures MarshalOtherNameSAN(name, critical).value ==
            [0x30, 18 + |name|] + [0xA0, 16 + |name|] + [0x06, 0x0A] + EncodeOid(OID_OTHER_NAME)
            + [0xA0, 2 + |name|] + [0x0C, |name|] + name
  {
    hide EncodeOid, EncodeLength, Tlv;
    OidOctets();
    var id := EncodeOid(OID_OTHER_NAME);
    var text := Tlv(UTF8_STRING, name);
    ShortTlv(UTF8_STRING, name);
    ShortTlv(CONTEXT_0, text);
    ShortTlv(OBJECT_IDENTIFIER, id);
    ShortTlv(CONTEXT_0, OtherNameBody(name));
    ShortTlv(SEQUENCE, MarshalOtherName(name));
    Flatten([0x30, 18 + |name|], [0xA0, 16 + |name|], [0x06, 0x0A], id, [0xA0, 2 + |name|], [0x0C, |name|], name);
  }

  lemma Flatten(a: bytes, b: bytes, c: bytes, d: bytes, e: bytes, f: bytes, g: bytes)
    ensures a + (b + ((c + d) + (e + (f + g)))) == a + b + c + d + e + f + g
  {
  }

  lemma ShortTlv(id: byte, body: bytes)
    requires |body| < 128
    ensures Tlv(id, body) == [id, |body|] + body
  {
  }

  lemma OtherNameSize(name: bytes)
    requires |name| < NAME_LIMIT
    ensures |OtherNameBody(name)| <= |name| + 42
    ensures |OtherNameBody(name)| < INT_LIMIT
  {
    OidOctets();
    TlvBound(UTF8_STRING, name);
    TlvBound(CONTEXT_0, Tlv(UTF8_STRING, name));
    TlvBound(OBJECT_IDENTIFIER, EncodeOid(OID_OTHER_NAME));
  }

  // ----- parsing one OtherName

  // The string types encoding/asn1 reads into a Go string, by universal tag, with what it reads.
  function StringValue(tag: nat, bs: bytes): Option<bytes> {
    match tag
    case 30 => Bmp.Decode(bs)
    case _ => if StringChars(tag, bs) then Some(bs) else None
  }

  predicate StringChars(tag: nat, bs: bytes) {
    match tag
    case 12 => Utf8.Valid(bs)
    case 18 => forall i :: 0 <= i < |bs| ==> Digit(bs[i]) || bs[i] == 32
    case 19 => forall i :: 0 <= i < |bs| ==> Printable(bs[i])
    case 20 => true
    case 22 => forall i :: 0 <= i < |bs| ==> bs[i] < 128
    case 27 => true
    case _ => false
  }

  predicate Digit(b: byte) {
    48 <= b <= 57
  }

  predicate Printable(b: byte) {
    || 97 <= b <= 122
    || 65 <= b <= 90
    || Digit(b)
    || 39 <= b <= 41
    || 43 <= b <= 47
    || b in {32, 58, 61, 63, 42, 38}
  }

  // The types themselves: UTF-8, numeric, printable, T61, IA5, general and BMP strings.
  lemma StringTypes(tag: nat, bs: bytes)
    ensures StringValue(tag, bs).Some? ==> tag in {12, 18, 19, 20, 22, 27, 30}
    ensures tag in {18, 19, 20, 22, 27} && StringValue(tag, bs).Some? ==> StringValue(tag, bs) == Some(bs)
    ensures StringValue(12, bs) == if Utf8.Valid(bs) then Some(bs) else None
    ensures StringValue(30, bs) == Bmp.Decode(bs)
  {
    hide Bmp.Decode, Utf8.Valid;
  }

  // The character sets of section 41.4 of X.680, with the two characters that encoding/asn1 lets pass.
  lemma StringSets(b: byte)
    ensures StringValue(18, [b]).Some? <==> b in Ascii("0123456789 ")
    ensures StringValue(19, [b]).Some? <==>
            || 'A' as int <= b <= 'Z' as int || 'a' as int <= b <= 'z' as int
            || '0' as int <= b <= '9' as int || b in Ascii(" '()+,-./:=?*&")
    ensures StringValue(22, [b]).Some? <==> b < 128
    ensures StringValue(20, [b]) == StringValue(27, [b]) == Some([b])
  {
    hide Bmp.Decode, Utf8.Valid;
    assert [b][0] == b;
    var digits, marks := Ascii("0123456789 "), Ascii(" '()+,-./:=?*&");
    assert digits == [48, 49, 50, 51, 52, 53, 54, 55, 56, 57, 32];
    assert marks == [32, 39, 40, 41, 43, 44, 45, 46, 47, 58, 61, 63, 42, 38];
  }

  // An explicitly tagged [0] string. The length of the outer tag is only required to be non-zero.
  function ParseExplicitString(bs: bytes): Option<bytes> {
    match ReadHeader(bs, ASN1_LIMIT)
    case None => None
    case Some((outer, rest)) =>
      if !(outer.cls == CONTEXT_SPECIFIC && outer.tag == 0 && outer.compound && outer.length > 0) then None
      else
        match ReadHeader(rest, ASN1_LIMIT)
        case None => None
        case Some((inner, rest')) =>
          if inner.cls == UNIVERSAL && !inner.compound && inner.length <= |rest'|
          then StringValue(inner.tag, rest'[..inner.length])
          else None
  }

  // Bytes after the two fields are ignored, as for every SEQUENCE encoding/asn1 reads into a struct.
  function ParseOtherName(e: Element): Option<OtherName> {
    if !(e.cls == CONTEXT_SPECIFIC && e.compound) then None
    else
      match ReadElement(e.body, ASN1_LIMIT)
      case None => None
      case Some((o, rest)) =>
        if !(o.cls == UNIVERSAL && !o.compound && o.tag == 6) then None
        else
          match (ParseOid(o.body), ParseExplicitString(rest))
          case (Some(id), Some(value)) => Some(OtherName(id, value))
          case _ => None
  }

  // ----- the scan, extension by extension and element by element, with the first error met

  function ScanElement(e: Element): Result<seq<bytes>, SanError> {
    if e.tag != 0 then Ok([])
    else
      match ParseOtherName(e)
      case None => Err(BadOtherName)
      case Some(other) => if other.id != OID_OTHER_NAME then Err(UnexpectedOid) else Ok([other.value])
  }

  function ScanElements(rest: bytes, found: seq<bytes>): Result<seq<bytes>, SanError>
    decreases |rest|
  {
    if rest == [] then Ok(found)
    else
      match ReadElement(rest, ASN1_LIMIT)
      case None => Err(MalformedElement)
      case Some((e, rest')) =>
        match ScanElement(e)
        case Err(x) => Err(x)
        case Ok(names) => ScanElements(rest', found + names)
  }

  function OpenSequence(value: bytes): Result<bytes, SanError> {
    match ReadElement(value, ASN1_LIMIT)
    case None => Err(MalformedElement)
    case Some((e, rest)) =>
      if rest != [] then Err(TrailingData)
      else if !(e.compound && e.tag == 16 && e.cls == UNIVERSAL) then Err(BadSequence)
      else Ok(e.body)
  }

  function ScanExtension(e: Extension, found: seq<bytes>): Result<seq<bytes>, SanError> {
    if e.id != SAN_OID then Ok(found)
    else
      match OpenSequence(e.value)
      case Err(x) => Err(x)
      case Ok(body) => ScanElements(body, found)
  }

  function ScanExtensions(exts: seq<Extension>, found: seq<bytes>): Result<seq<bytes>, SanError> {
    if exts == [] then Ok(found)
    else
      match ScanExtension(exts[0], found)
      case Err(x) => Err(x)
      case Ok(found') => ScanExtensions(exts[1..], found')
  }

  function ExactlyOne(names: seq<bytes>): Result<bytes, SanError> {
    if |names| == 0 then Err(NoOtherName)
    else if |names| != 1 then Err(SeveralOtherNames)
    else Ok(names[0])
  }

  function Unmarshal(exts: seq<Extension>): Result<bytes, SanError> {
    match ScanExtensions(exts, [])
    case Err(x) => Err(x)
    case Ok(names) => ExactlyOne(names)
  }

  method UnmarshalOtherNameSAN(exts: seq<Extension>) returns (r: Result<bytes, SanError>)
    ensures r == Unmarshal(exts)
  {
    var otherNames: seq<bytes> := [];
    var i := 0;
    while i < |exts|
      invariant 0 <= i <= |exts|
      invariant ScanExtensions(exts, []) == ScanExtensions(exts[i..], otherNames)
    {
      var e := exts[i];
      assert exts[i..][1..] == exts[i + 1..];
      i := i + 1;
      if e.id != SAN_OID {
        continue;
      }
      var outer := ReadElement(e.value, ASN1_LIMIT);
      if outer.None? {
        return Err(MalformedElement);
      } else if outer.value.1 != [] {
        return Err(TrailingData);
      }
      var sequence := outer.value.0;
      if !sequence.compound || sequence.tag != 16 || sequence.cls != UNIVERSAL {
        return Err(BadSequence);
      }
      var rest := sequence.body;
      ghost var before := otherNames;
      while |rest| > 0
        invariant ScanElements(sequence.body, before) == ScanElements(rest, otherNames)
        decreases |rest|
      {
        var read := ReadElement(rest, ASN1_LIMIT);
        if read.None? {
          return Err(MalformedElement);
        }
        var v := read.value.0;
        rest := read.value.1;
        if v.tag != 0 {
          assert otherNames + [] == otherNames;
          continue;
        }
        var other := ParseOtherName(v);
        if other.None? {
          return Err(BadOtherName);
        }
        if other.value.id != OID_OTHER_NAME {
          return Err(UnexpectedOid);
        }
        otherNames := otherNames + [other.value.value];
      }
    }
    if |otherNames| == 0 {
      return Err(NoOtherName);
    }
    if |otherNames| != 1 {
      return Err(SeveralOtherNames);
    }
    return Ok(otherNames[0]);
  }

  // ----- success, said without the scan

  // The value is one universal SEQUENCE element, all of it, and its contents are exactly these elements.
  predicate GeneralNames(value: bytes, names: seq<Element>) {
    && ReadElement(value, ASN1_LIMIT).Some?
    && var (e, rest) := ReadElement(value, ASN1_LIMIT).value;
       rest == [] && e.compound && e.tag == 16 && e.cls == UNIVERSAL
       && e.body == Concat(names) && AllStandalone(names, ASN1_LIMIT)
  }

  // Every tag-0 element is an OtherName of the expected type.
  predicate OtherNamesParse(names: seq<Element>) {
    forall i :: 0 <= i < |names| && names[i].tag == 0 ==>
      ParseOtherName(names[i]).Some? && ParseOtherName(names[i]).value.id == OID_OTHER_NAME
  }

  function OtherNameValues(names: seq<Element>): seq<bytes>
    requires OtherNamesParse(names)
  {
    if names == [] then []
    else
      assert OtherNamesParse(names[1..]);
      (if names[0].tag == 0 then [ParseOtherName(names[0]).value.value] else []) + OtherNameValues(names[1..])
  }

  // One list of general names per SAN extension, in order.
  predicate SanContents(exts: seq<Extension>, contents: seq<seq<Element>>) {
    if exts == [] then contents == []
    else if exts[0].id != SAN_OID then SanContents(exts[1..], contents)
    else
      && contents != []
      && GeneralNames(exts[0].value, contents[0])
      && OtherNamesParse(contents[0])
      && SanContents(exts[1..], contents[1..])
  }

  predicate AllParse(contents: seq<seq<Element>>) {
    forall i :: 0 <= i < |contents| ==> OtherNamesParse(contents[i])
  }

  function AllValues(contents: seq<seq<Element>>): seq<bytes>
    requires AllParse(contents)
  {
    if contents == [] then [] else OtherNameValues(contents[0]) + AllValues(contents[1..])
  }

  lemma ConcatStep(es: seq<Element>, tail: bytes)
    requires es != []
    ensures Concat(es) + tail == es[0].full + (Concat(es[1..]) + tail)
  {
  }

  lemma ScanStep(e: Element, more: bytes, found: seq<bytes>)
    requires Standalone(e, ASN1_LIMIT)
    ensures ScanElement(e).Err? ==> ScanElements(e.full + more, found) == Err(ScanElement(e).error)
    ensures ScanElement(e).Ok? ==>
            ScanElements(e.full + more, found) == ScanElements(more, found + ScanElement(e).value)
  {
    StandaloneReads(e, ASN1_LIMIT, more);
  }

  lemma OtherNamesCons(es: seq<Element>)
    requires es != []
    ensures OtherNamesParse(es) <==> ScanElement(es[0]).Ok? && OtherNamesParse(es[1..])
    ensures OtherNamesParse(es) ==> OtherNameValues(es) == ScanElement(es[0]).value + OtherNameValues(es[1..])
  {
    assert es == [es[0]] + es[1..];
  }

  lemma {:induction false} ScanElementsOk(es: seq<Element>, tail: bytes, found: seq<bytes>)
    requires AllStandalone(es, ASN1_LIMIT) && OtherNamesParse(es)
    ensures ScanElements(Concat(es) + tail, found) == ScanElements(tail, found + OtherNameValues(es))
  {
    if es == [] {
      assert Concat(es) + tail == tail;
      assert found + [] == found;
    } else {
      ScanElementsOkStep(es, tail, found);
      ScanElementsOk(es[1..], tail, found + ScanElement(es[0]).value);
    }
  }

  lemma ScanElementsOkStep(es: seq<Element>, tail: bytes, found: seq<bytes>)
    requires es != [] && AllStandalone(es, ASN1_LIMIT) && OtherNamesParse(es)
    ensures AllStandalone(es[1..], ASN1_LIMIT) && OtherNamesParse(es[1..]) && ScanElement(es[0]).Ok?
    ensures var names := ScanElement(es[0]).value;
            && ScanElements(Concat(es) + tail, found) == ScanElements(Concat(es[1..]) + tail, found + names)
            && found + OtherNameValues(es) == found + names + OtherNameValues(es[1..])
  {
    hide Concat, ScanElement, ScanElements, ReadElement;
    OtherNamesCons(es);
    ConcatStep(es, tail);
    ScanStep(es[0], Concat(es[1..]) + tail, found);
  }

  lemma {:induction false} ScanElementsBad(es: seq<Element>, tail: bytes, found: seq<bytes>)
    requires AllStandalone(es, ASN1_LIMIT) && !OtherNamesParse(es)
    ensures ScanElements(Concat(es) + tail, found).Err?
  {
    hide Concat, ScanElement, ScanElements, ReadElement;
    ConcatStep(es, tail);
    ScanStep(es[0], Concat(es[1..]) + tail, found);
    OtherNamesCons(es);
    if ScanElement(es[0]).Ok? {
      ScanElementsBad(es[1..], tail, found + ScanElement(es[0]).value);
    }
  }

  // A scan of contents that do not split into elements fails.
  lemma {:induction false} ScanElementsSplit(rest: bytes, found: seq<bytes>)
    requires ScanElements(rest, found).Ok?
    ensures Elements(rest, ASN1_LIMIT).Some?
    decreases |rest|
  {
    if rest == [] {
    } else {
      var (e, rest') := ReadElement(rest, ASN1_LIMIT).value;
      ScanElementsSplit(rest', found + ScanElement(e).value);
    }
  }

  lemma ScanExtensionOk(e: Extension, found: seq<bytes>, found': seq<bytes>)
    requires e.id == SAN_OID
    ensures ScanExtension(e, found) == Ok(found') <==>
            exists names :: GeneralNames(e.value, names) && OtherNamesParse(names)
              && found' == found + OtherNameValues(names)
  {
    if OpenSequence(e.value).Ok? {
      var body := OpenSequence(e.value).value;
      if ScanElements(body, found).Ok? {
        ScanElementsSplit(body, found);
        var names := Elements(body, ASN1_LIMIT).value;
        ElementsIff(body, names, ASN1_LIMIT);
        assert Concat(names) + [] == body;
        if OtherNamesParse(names) {
          ScanElementsOk(names, [], found);
        } else {
          ScanElementsBad(names, [], found);
        }
        assert GeneralNames(e.value, names);
      }
      forall names | GeneralNames(e.value, names) && OtherNamesParse(names)
        ensures ScanExtension(e, found) == Ok(found + OtherNameValues(names))
      {
        ScanElementsOk(names, [], found);
        assert Concat(names) + [] == body;
      }
    }
  }

  lemma AllValuesCons(names: seq<Element>, rest: seq<seq<Element>>, found: seq<bytes>)
    requires OtherNamesParse(names) && AllParse(rest)
    ensures AllParse([names] + rest)
    ensures found + AllValues([names] + rest) == (found + OtherNameValues(names)) + AllValues(rest)
  {
    assert ([names] + rest)[1..] == rest;
  }

  lemma {:induction false} ScanExtensionsOk(exts: seq<Extension>, found: seq<bytes>)
    returns (contents: seq<seq<Element>>)
    requires ScanExtensions(exts, found).Ok?
    ensures SanContents(exts, contents) && AllParse(contents)
    ensures ScanExtensions(exts, found).value == found + AllValues(contents)
  {
    if exts == [] {
      contents := [];
      assert found + [] == found;
    } else {
      var found' := ScanExtension(exts[0], found).value;
      contents := ScanExtensionsOk(exts[1..], found');
      if exts[0].id == SAN_OID {
        ScanExtensionOk(exts[0], found, found');
        var names :| GeneralNames(exts[0].value, names) && OtherNamesParse(names)
          && found' == found + OtherNameValues(names);
        AllValuesCons(names, contents, found);
        assert ([names] + contents)[1..] == contents;
        contents := [names] + contents;
      }
    }
  }

  lemma {:induction false} ScanExtensionsComplete(exts: seq<Extension>, found: seq<bytes>, contents: seq<seq<Element>>)
    requires SanContents(exts, contents) && AllParse(contents)
    ensures ScanExtensions(exts, found) == Ok(found + AllValues(contents))
  {
    if exts == [] {
      assert found + [] == found;
    } else if exts[0].id != SAN_OID {
      ScanExtensionsComplete(exts[1..], found, contents);
    } else {
      var found' := found + OtherNameValues(contents[0]);
      ScanExtensionOk(exts[0], found, found');
      assert AllParse(contents[1..]);
      ScanExtensionsComplete(exts[1..], found', contents[1..]);
      AllValuesCons(contents[0], contents[1..], found);
      assert contents == [contents[0]] + contents[1..];
    }
  }

  // The bytes an OtherName is read from: an identifier, then an explicit [0] whose length need not fit, then
  // a primitive string of one of the universal types, then anything.
  predicate OtherNameForm(e: Element, name: OtherName, o: bytes, n: nat, t: byte, raw: bytes, tail: bytes) {
    && e.cls == 2 && e.compound
    && |o| < ASN1_LIMIT && ParseOid(o) == Some(name.id)
    && 0 < n < ASN1_LIMIT && t < 31 && |raw| < ASN1_LIMIT && StringValue(t, raw) == Some(name.value)
    && e.body == Tlv(0x06, o) + ([0xA0] + EncodeLength(n) + ([t] + EncodeLength(|raw|) + (raw + tail)))
  }

  lemma FormParses(e: Element, name: OtherName, o: bytes, n: nat, t: byte, raw: bytes, tail: bytes)
    requires OtherNameForm(e, name, o, n, t, raw, tail)
    ensures ParseOtherName(e) == Some(name)
  {
    hide Tlv, EncodeLength, ReadElement, ReadHeader, ParseOid, StringValue;
    var inner := [t] + EncodeLength(|raw|) + (raw + tail);
    ReadTlv(0x06, o, [0xA0] + EncodeLength(n) + inner, ASN1_LIMIT);
    ReadHeaderOf(0xA0, n, inner, ASN1_LIMIT);
    ReadHeaderOf(t, |raw|, raw + tail, ASN1_LIMIT);
    assert (raw + tail)[..|raw|] == raw;
  }

  lemma StringForm(bs: bytes) returns (n: nat, t: byte, raw: bytes, tail: bytes)
    requires ParseExplicitString(bs).Some?
    ensures 0 < n < ASN1_LIMIT && t < 31 && |raw| < ASN1_LIMIT && StringValue(t, raw) == ParseExplicitString(bs)
    ensures bs == [0xA0] + EncodeLength(n) + ([t] + EncodeLength(|raw|) + (raw + tail))
  {
    hide EncodeLength, ReadHeader, Bmp.Decode, Utf8.Valid;
    var (outer, rest) := ReadHeader(bs, ASN1_LIMIT).value;
    var (inner, rest') := ReadHeader(rest, ASN1_LIMIT).value;
    HeaderOctet(bs, ASN1_LIMIT);
    ReadHeaderInverse(bs, ASN1_LIMIT);
    HeaderOctet(rest, ASN1_LIMIT);
    ReadHeaderInverse(rest, ASN1_LIMIT);
    n, t := outer.length, inner.tag;
    raw, tail := rest'[..inner.length], rest'[inner.length..];
    assert rest' == raw + tail;
  }

  lemma ParsedForm(e: Element) returns (o: bytes, n: nat, t: byte, raw: bytes, tail: bytes)
    requires ParseOtherName(e).Some?
    ensures OtherNameForm(e, ParseOtherName(e).value, o, n, t, raw, tail)
  {
    hide Tlv, EncodeLength, ReadElement, ReadHeader, ParseOid, StringValue, ParseExplicitString;
    var (id, rest) := ReadElement(e.body, ASN1_LIMIT).value;
    SmallTagOctet(e.body, ASN1_LIMIT);
    ReadElementInverse(e.body, ASN1_LIMIT);
    o := id.body;
    n, t, raw, tail := StringForm(rest);
  }

  // Exactly which elements parse, and to what.
  lemma ParseOtherNameIff(e: Element, name: OtherName)
    ensures ParseOtherName(e) == Some(name) <==> exists o, n, t, raw, tail :: OtherNameForm(e, name, o, n, t, raw, tail)
  {
    hide ParseOtherName, OtherNameForm;
    if ParseOtherName(e) == Some(name) {
      var o, n, t, raw, tail := ParsedForm(e);
    }
    if o, n, t, raw, tail :| OtherNameForm(e, name, o, n, t, raw, tail) {
      FormParses(e, name, o, n, t, raw, tail);
    }
  }

  // Success, both ways: well-formed SAN extensions whose tag-0 elements are all expected OtherNames,
  // one of them in all.
  lemma UnmarshalSucceedsIff(exts: seq<Extension>, name: bytes)
    ensures Unmarshal(exts) == Ok(name) <==>
            exists contents ::
              && SanContents(exts, contents)
              && AllParse(contents)
              && AllValues(contents) == [name]
  {
    if Unmarshal(exts) == Ok(name) {
      var contents := ScanExtensionsOk(exts, []);
      assert [] + AllValues(contents) == AllValues(contents);
    }
    forall contents |
        && SanContents(exts, contents)
        && AllParse(contents)
        && AllValues(contents) == [name]
      ensures Unmarshal(exts) == Ok(name)
    {
      ScanExtensionsComplete(exts, [], contents);
      assert [] + AllValues(contents) == AllValues(contents);
    }
  }

  // ----- what never matters

  lemma {:induction false} ScanExtensionsAppend(xs: seq<Extension>, ys: seq<Extension>, found: seq<bytes>)
    ensures ScanExtensions(xs + ys, found) ==
            match ScanExtensions(xs, found)
            case Err(x) => Err(x)
            case Ok(found') => ScanExtensions(ys, found')
  {
    if xs == [] {
      assert xs + ys == ys;
    } else {
      assert (xs + ys)[1..] == xs[1..] + ys;
      match ScanExtension(xs[0], found)
      case Err(_) =>
      case Ok(found') => ScanExtensionsAppend(xs[1..], ys, found');
    }
  }

  // An extension that is not a SAN may stand anywhere, whatever its value.
  lemma OtherExtensionsAreIgnored(xs: seq<Extension>, e: Extension, ys: seq<Extension>)
    requires e.id != SAN_OID
    ensures Unmarshal(xs + [e] + ys) == Unmarshal(xs + ys)
  {
    ScanExtensionsAppend(xs, ys, []);
    ScanExtensionsAppend(xs + [e], ys, []);
    ScanExtensionsAppend(xs, [e], []);
    match ScanExtensions(xs, [])
    case Err(_) =>
    case Ok(found) => assert ScanExtensions([e], found) == Ok(found);
  }

  // A general name of another kind may stand at any element boundary of a SAN extension, even when
  // what follows it is malformed.
  lemma OtherGeneralNamesAreIgnored(xs: seq<Extension>, critical: bool, es: seq<Element>, g: Element, tail: bytes,
                                    ys: seq<Extension>)
    requires AllStandalone(es, ASN1_LIMIT) && Standalone(g, ASN1_LIMIT) && g.tag != 0
    requires |Concat(es) + g.full + tail| < ASN1_LIMIT
    ensures Unmarshal(xs + [Extension(SAN_OID, critical, Tlv(SEQUENCE, Concat(es) + g.full + tail))] + ys)
         == Unmarshal(xs + [Extension(SAN_OID, critical, Tlv(SEQUENCE, Concat(es) + tail))] + ys)
  {
    var e := Extension(SAN_OID, critical, Tlv(SEQUENCE, Concat(es) + g.full + tail));
    var e' := Extension(SAN_OID, critical, Tlv(SEQUENCE, Concat(es) + tail));
    forall found: seq<bytes>
      ensures ScanExtension(e, found) == ScanExtension(e', found)
    {
      OpenPrintedSequence(Concat(es) + g.full + tail);
      OpenPrintedSequence(Concat(es) + tail);
      SkipGeneralName(es, g, tail, found);
    }
    OneExtensionReplaced(xs, e, e', ys);
  }

  lemma SkipGeneralName(es: seq<Element>, g: Element, tail: bytes, found: seq<bytes>)
    requires AllStandalone(es, ASN1_LIMIT) && Standalone(g, ASN1_LIMIT) && g.tag != 0
    ensures ScanElements(Concat(es) + g.full + tail, found) == ScanElements(Concat(es) + tail, found)
  {
    StandaloneReads(g, ASN1_LIMIT, tail);
    assert forall f: seq<bytes> :: f + [] == f;
    ScanElementsSame(es, g.full + tail, tail, found);
    assert Concat(es) + g.full + tail == Concat(es) + (g.full + tail);
  }

  lemma {:induction false} ScanElementsSame(es: seq<Element>, t1: bytes, t2: bytes, found: seq<bytes>)
    requires AllStandalone(es, ASN1_LIMIT)
    requires forall f :: ScanElements(t1, f) == ScanElements(t2, f)
    ensures ScanElements(Concat(es) + t1, found) == ScanElements(Concat(es) + t2, found)
  {
    hide ScanElement, ScanElements, ReadElement;
    if es == [] {
      assert Concat(es) + t1 == t1 && Concat(es) + t2 == t2;
    } else {
      ConcatStep(es, t1);
      ConcatStep(es, t2);
      ScanStep(es[0], Concat(es[1..]) + t1, found);
      ScanStep(es[0], Concat(es[1..]) + t2, found);
      if ScanElement(es[0]).Ok? {
        ScanElementsSame(es[1..], t1, t2, found + ScanElement(es[0]).value);
      }
    }
  }

  lemma OpenPrintedSequence(body: bytes)
    requires |body| < INT_LIMIT
    ensures OpenSequence(Tlv(SEQUENCE, body)) == if |body| < ASN1_LIMIT then Ok(body) else Err(MalformedElement)
  {
    ReadTlv(SEQUENCE, body, [], ASN1_LIMIT);
    assert Tlv(SEQUENCE, body) + [] == Tlv(SEQUENCE, body);
  }

  function Then(xs: seq<Extension>, e: Extension, ys: seq<Extension>, found: seq<bytes>): Result<seq<bytes>, SanError> {
    match ScanExtensions(xs, found)
    case Err(x) => Err(x)
    case Ok(f) =>
      match ScanExtension(e, f)
      case Err(x) => Err(x)
      case Ok(f') => ScanExtensions(ys, f')
  }

  lemma ScanMiddle(xs: seq<Extension>, e: Extension, ys: seq<Extension>, found: seq<bytes>)
    ensures ScanExtensions(xs + [e] + ys, found) == Then(xs, e, ys, found)
  {
    assert xs + [e] + ys == xs + ([e] + ys);
    assert ([e] + ys)[1..] == ys;
    ScanExtensionsAppend(xs, [e] + ys, found);
  }

  lemma OneExtensionReplaced(xs: seq<Extension>, e: Extension, e': Extension, ys: seq<Extension>)
    requires forall f :: ScanExtension(e, f) == ScanExtension(e', f)
    ensures Unmarshal(xs + [e] + ys) == Unmarshal(xs + [e'] + ys)
  {
    ScanMiddle(xs, e, ys, []);
    ScanMiddle(xs, e', ys, []);
  }

  // ----- the round trip

  // Four length octets up to the readers' limits, never more.
  lemma BigTlvSize(id: byte, body: bytes)
    requires |body| < ASN1_LIMIT
    ensures |Tlv(id, body)| <= |body| + 6
    ensures 0x100_0000 <= |body| ==> |Tlv(id, body)| == |body| + 6
  {
    TlvSize(id, body);
    ToBigEndianLength(|body|, 3);
    ToBigEndianLength(|body|, 4);
    assert Pow256(3) == 0x100_0000 && Pow256(4) == 0x1_0000_0000;
  }

  // Thirty octets of headers surround a long name.
  lemma MarshalledSize(name: bytes)
    requires |name| < NAME_LIMIT
    ensures |MarshalOtherName(name)| < ASN1_LIMIT <==> |name| < ASN1_LIMIT - 30
    ensures |OtherNameBody(name)| < |MarshalOtherName(name)|
  {
    OtherNameSize(name);
    TlvBound(UTF8_STRING, name);
    OidOctets();
    TlvSize(OBJECT_IDENTIFIER, EncodeOid(OID_OTHER_NAME));
    var inner, body := Tlv(UTF8_STRING, name), OtherNameBody(name);
    var explicit := Tlv(CONTEXT_0, inner);
    assert |explicit| > |inner| > |name|;
    hide Tlv, EncodeOid;
    assert |body| == 12 + |explicit|;
    if |name| < ASN1_LIMIT {
      BigTlvSize(UTF8_STRING, name);
    }
    if |inner| < ASN1_LIMIT {
      BigTlvSize(CONTEXT_0, inner);
    }
    if |body| < ASN1_LIMIT {
      BigTlvSize(CONTEXT_0, body);
    }
    assert |MarshalOtherName(name)| > |body| by {
      TlvSize(CONTEXT_0, body);
    }
  }

  lemma ReadTlvAlone(id: byte, body: bytes, limit: nat)
    requires |body| < limit <= INT_LIMIT
    requires 128 <= limit
    requires id % 32 != 31
    ensures ReadHeader(Tlv(id, body), limit) == Some((Header(id / 64, id / 32 % 2 == 1, id % 32, |body|), body))
    ensures ReadElement(Tlv(id, body), limit) ==
            Some((Element(id / 64, id / 32 % 2 == 1, id % 32, body, Tlv(id, body)), []))
  {
    ReadTlvHeader(id, body, [], limit);
    ReadTlv(id, body, [], limit);
    assert Tlv(id, body) + [] == Tlv(id, body);
    assert body + [] == body;
  }

  lemma ParseMarshalledString(name: bytes)
    requires |name| < ASN1_LIMIT - 30
    ensures |Tlv(UTF8_STRING, name)| < ASN1_LIMIT
    ensures ParseExplicitString(Tlv(CONTEXT_0, Tlv(UTF8_STRING, name))) == if Utf8.Valid(name) then Some(name) else None
  {
    BigTlvSize(UTF8_STRING, name);
    var inner := Tlv(UTF8_STRING, name);
    ReadTlvAlone(CONTEXT_0, inner, ASN1_LIMIT);
    ReadTlvAlone(UTF8_STRING, name, ASN1_LIMIT);
    assert name[..|name|] == name;
  }

  lemma ParseMarshalledElement(name: bytes, full: bytes)
    requires |name| < ASN1_LIMIT - 30
    ensures ScanElement(Element(CONTEXT_SPECIFIC, true, 0, OtherNameBody(name), full)) ==
            if Utf8.Valid(name) then Ok([name]) else Err(BadOtherName)
  {
    hide EncodeOid, ParseOid, ParseExplicitString, ReadElement, Tlv, Utf8.Valid;
    OidOctets();
    ParseEncodedOid(OID_OTHER_NAME);
    BigTlvSize(UTF8_STRING, name);
    ParseMarshalledString(name);
    var id, explicit := EncodeOid(OID_OTHER_NAME), Tlv(CONTEXT_0, Tlv(UTF8_STRING, name));
    ReadTlv(OBJECT_IDENTIFIER, id, explicit, ASN1_LIMIT);
    assert OtherNameBody(name) == Tlv(OBJECT_IDENTIFIER, id) + explicit;
  }

  lemma ScanOnly(id: byte, body: bytes)
    requires |body| < ASN1_LIMIT && id % 32 != 31
    ensures ScanElements(Tlv(id, body), []) ==
            ScanElement(Element(id / 64, id / 32 % 2 == 1, id % 32, body, Tlv(id, body)))
  {
    hide ReadElement, EncodeLength, ScanElement;
    ReadTlvAlone(id, body, ASN1_LIMIT);
    var e := Element(id / 64, id / 32 % 2 == 1, id % 32, body, Tlv(id, body));
    if ScanElement(e).Ok? {
      assert [] + ScanElement(e).value == ScanElement(e).value;
    }
  }

  lemma ParseMarshalledOtherName(name: bytes)
    requires |name| < ASN1_LIMIT - 30
    ensures ScanElements(MarshalOtherName(name), []) ==
            if Utf8.Valid(name) then Ok([name]) else Err(BadOtherName)
  {
    hide ScanElements, ScanElement, OtherNameBody, Tlv, Utf8.Valid;
    MarshalledSize(name);
    var body := OtherNameBody(name);
    ScanOnly(CONTEXT_0, body);
    ParseMarshalledElement(name, Tlv(CONTEXT_0, body));
  }

  // A marshalled name among any other extensions comes back exactly when it is valid UTF-8 and leaves
  // room for its headers below the reader's length limit.
  lemma RoundTrip(name: bytes, critical: bool, before: seq<Extension>, after: seq<Extension>)
    requires |name| < NAME_LIMIT
    requires forall i :: 0 <= i < |before| ==> before[i].id != SAN_OID
    requires forall i :: 0 <= i < |after| ==> after[i].id != SAN_OID
    ensures Unmarshal(before + [MarshalOtherNameSAN(name, critical)] + after) == Ok(name) <==>
            Utf8.Valid(name) && |name| < 0x8000_0000 - 30
    ensures !Utf8.Valid(name) || |name| >= 0x8000_0000 - 30 ==>
              Unmarshal(before + [MarshalOtherNameSAN(name, critical)] + after).Err?
  {
    var e := MarshalOtherNameSAN(name, critical);
    MarshalledSize(name);
    OtherNameSize(name);
    TlvBound(CONTEXT_0, OtherNameBody(name));
    OpenPrintedSequence(MarshalOtherName(name));
    if |name| < ASN1_LIMIT - 30 {
      ParseMarshalledOtherName(name);
    }
    OnlyOneSan(before, e, after);
  }

  lemma {:induction false} SkipAll(exts: seq<Extension>, found: seq<bytes>)
    requires forall i :: 0 <= i < |exts| ==> exts[i].id != SAN_OID
    ensures ScanExtensions(exts, found) == Ok(found)
  {
    if exts == [] {
    } else {
      SkipAll(exts[1..], found);
    }
  }

  lemma OnlyOneSan(before: seq<Extension>, e: Extension, after: seq<Extension>)
    requires forall i :: 0 <= i < |before| ==> before[i].id != SAN_OID
    requires forall i :: 0 <= i < |after| ==> after[i].id != SAN_OID
    ensures Unmarshal(before + [e] + after) ==
            match ScanExtension(e, [])
            case Err(x) => Err(x)
            case Ok(names) => ExactlyOne(names)
  {
    SkipAll(before, []);
    ScanExtensionsAppend(before, [e] + after, []);
    assert before + [e] + after == before + ([e] + after);
    assert ([e] + after)[1..] == after;
    match ScanExtension(e, [])
    case Err(_) =>
    case Ok(names) => SkipAll(after, names);
  }
}
