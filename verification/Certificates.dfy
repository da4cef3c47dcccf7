/** pkg/cryptoutils/certificate.go: lists of certificates as concatenated PEM blocks. Certificates are an
    abstract type C with its DER bytes (raw) and the X.509 parser (parse). */
module Certificates {
  import opened Wrappers
  import opened Bytes
  import Pem
  import Utf8

  const CERTIFICATE: bytes := Ascii("CERTIFICATE")

  datatype CertError =
    | NilCertificate
    | PemDecoding
    | CertificateParsing
    | TooManyCertificates

  // ----- printing

  function CertificateBlock<C>(cert: C, raw: C -> bytes): Pem.Block {
    Pem.Block(CERTIFICATE, raw(cert))
  }

  function Marshalled<C>(certs: seq<C>, raw: C -> bytes): bytes {
    if certs == [] then []
    else Pem.Encode(CertificateBlock(certs[0], raw)) + Marshalled(certs[1..], raw)
  }

  // The certificates before the first nil.
  function NonNil<C>(certs: seq<Option<C>>): seq<C> {
    if certs == [] || certs[0].None? then [] else [certs[0].value] + NonNil(certs[1..])
  }

  lemma MarshalledStep<C>(buf: bytes, block: bytes, certs: seq<Option<C>>, raw: C -> bytes)
    requires certs != [] && certs[0].Some? && block == Pem.Encode(CertificateBlock(certs[0].value, raw))
    ensures buf + Marshalled(NonNil(certs), raw) == (buf + block) + Marshalled(NonNil(certs[1..]), raw)
    ensures |NonNil(certs)| == 1 + |NonNil(certs[1..])|
  {
    assert NonNil(certs)[1..] == NonNil(certs[1..]);
  }

  lemma NothingFrom<C>(raw: C -> bytes)
    ensures Marshalled([], raw) == []
  {
  }

  method MarshalCertificatesToPEM<C>(certs: seq<Option<C>>, raw: C -> bytes) returns (r: Result<bytes, CertError>)
    ensures r.Ok? <==> forall i :: 0 <= i < |certs| ==> certs[i].Some?
    ensures r.Ok? ==> r.value == Marshalled(NonNil(certs), raw) && |NonNil(certs)| == |certs|
    ensures r.Err? ==> r.error == NilCertificate
  {
    hide Pem.Encode, Marshalled;
    NothingFrom(raw);
    var buf: bytes := [];
    var i := 0;
    while i < |certs|
      invariant 0 <= i <= |certs|
      invariant forall j :: 0 <= j < i ==> certs[j].Some?
      invariant buf + Marshalled(NonNil(certs[i..]), raw) == Marshalled(NonNil(certs), raw)
      invariant i + |NonNil(certs[i..])| == |NonNil(certs)|
    {
      if certs[i].None? {
        return Err(NilCertificate);
      }
      assert certs[i..][1..] == certs[i + 1..];
      var pemBytes := Pem.Encode(CertificateBlock(certs[i].value, raw));
      MarshalledStep(buf, pemBytes, certs[i..], raw);
      buf := buf + pemBytes;
      i := i + 1;
    }
    assert buf + [] == buf;
    return Ok(buf);
  }

  // ----- reading

  // ASCII other than white space.
  predicate Plain(c: byte) {
    c < 128 && !Space(c)
  }

  predicate Space(c: byte) {
    9 <= c <= 13 || c == 32
  }

  // The other white space of Unicode in UTF-8: U+0085, U+00A0, U+1680, U+2000 to U+200A, U+2028, U+2029,
  // U+202F, U+205F and U+3000.
  predicate Space2(a: byte, b: byte) {
    a == 0xC2 && b in {0x85, 0xA0}
  }

  predicate Space3(a: byte, b: byte, c: byte) {
    || (a == 0xE1 && b == 0x9A && c == 0x80)
    || (a == 0xE2 && b == 0x80 && (0x80 <= c <= 0x8A || c in {0xA8, 0xA9, 0xAF}))
    || (a == 0xE2 && b == 0x81 && c == 0x9F)
    || (a == 0xE3 && b == 0x80 && c == 0x80)
  }

  // The bytes of the white space a text begins or ends with, if any.
  function LeadingSpace(s: bytes): (n: nat)
    ensures n <= |s|
  {
    if s != [] && Space(s[0]) then 1
    else if |s| >= 2 && Space2(s[0], s[1]) then 2
    else if |s| >= 3 && Space3(s[0], s[1], s[2]) then 3
    else 0
  }

  function TrailingSpace(s: bytes): (n: nat)
    ensures n <= |s|
  {
    var e := |s|;
    if e >= 1 && Space(s[e - 1]) then 1
    else if e >= 2 && Space2(s[e - 2], s[e - 1]) then 2
    else if e >= 3 && Space3(s[e - 3], s[e - 2], s[e - 1]) then 3
    else 0
  }

  function TrimLeft(s: bytes): bytes {
    if LeadingSpace(s) > 0 then TrimLeft(s[LeadingSpace(s)..]) else s
  }

  function TrimRight(s: bytes): bytes {
    if TrailingSpace(s) > 0 then TrimRight(s[..|s| - TrailingSpace(s)]) else s
  }

  function TrimSpace(s: bytes): bytes {
    TrimRight(TrimLeft(s))
  }

  function Parse<C>(remaining: bytes, found: seq<C>, parse: bytes -> Option<C>): Result<seq<C>, CertError>
    decreases |remaining|
  {
    if remaining == [] then Ok(found)
    else
      match Pem.Decode(remaining)
      case None => Err(PemDecoding)
      case Some((block, rest)) =>
        match parse(block.contents)
        case None => Err(CertificateParsing)
        case Some(cert) => Parse(rest, found + [cert], parse)
  }

  function Unmarshalled<C>(pem: bytes, parse: bytes -> Option<C>): Result<seq<C>, CertError> {
    Parse(TrimSpace(pem), [], parse)
  }

  method UnmarshalCertificatesFromPEM<C>(pemBytes: bytes, parse: bytes -> Option<C>)
    returns (r: Result<seq<C>, CertError>)
    ensures r == Unmarshalled(pemBytes, parse)
  {
    var result := [];
    var remaining := TrimSpace(pemBytes);
    while |remaining| > 0
      invariant Unmarshalled(pemBytes, parse) == Parse(remaining, result, parse)
      decreases |remaining|
    {
      var certDer := Pem.Decode(remaining);
      if certDer.None? {
        return Err(PemDecoding);
      }
      remaining := certDer.value.1;
      var cert := parse(certDer.value.0.contents);
      if cert.None? {
        return Err(CertificateParsing);
      }
      result := result + [cert.value];
    }
    return Ok(result);
  }

  function ParseLimited<C>(remaining: bytes, found: seq<C>, parse: bytes -> Option<C>,
                           iterations: int): Result<seq<C>, CertError>
    decreases |remaining|
  {
    if remaining == [] then Ok(found)
    else if |found| == iterations then Err(TooManyCertificates)
    else
      match Pem.Decode(remaining)
      case None => Err(PemDecoding)
      case Some((block, rest)) =>
        match parse(block.contents)
        case None => Err(CertificateParsing)
        case Some(cert) => ParseLimited(rest, found + [cert], parse, iterations)
  }

  function UnmarshalledLimited<C>(pem: bytes, parse: bytes -> Option<C>, iterations: int): Result<seq<C>, CertError> {
    ParseLimited(TrimSpace(pem), [], parse, iterations)
  }

  method UnmarshalCertificatesFromPEMLimited<C>(pemBytes: bytes, parse: bytes -> Option<C>, iterations: int)
    returns (r: Result<seq<C>, CertError>)
    ensures r == UnmarshalledLimited(pemBytes, parse, iterations)
  {
    var result := [];
    var remaining := TrimSpace(pemBytes);
    var count := 0;
    while |remaining| > 0
      invariant count == |result|
      invariant UnmarshalledLimited(pemBytes, parse, iterations) == ParseLimited(remaining, result, parse, iterations)
      decreases |remaining|
    {
      if count == iterations {
        return Err(TooManyCertificates);
      }
      var certDer := Pem.Decode(remaining);
      if certDer.None? {
        return Err(PemDecoding);
      }
      remaining := certDer.value.1;
      var cert := parse(certDer.value.0.contents);
      if cert.None? {
        return Err(CertificateParsing);
      }
      result := result + [cert.value];
      count := count + 1;
    }
    return Ok(result);
  }

  // ----- the limit

  lemma {:induction false} ParseGrows<C>(remaining: bytes, found: seq<C>, parse: bytes -> Option<C>)
    requires Parse(remaining, found, parse).Ok?
    ensures |found| <= |Parse(remaining, found, parse).value|
    ensures remaining != [] ==> |found| < |Parse(remaining, found, parse).value|
    decreases |remaining|
  {
    if remaining == [] {
    } else {
      var (block, rest) := Pem.Decode(remaining).value;
      ParseGrows(rest, found + [parse(block.contents).value], parse);
    }
  }

  lemma {:induction false} ParseLimitedIs<C>(remaining: bytes, found: seq<C>, parse: bytes -> Option<C>, n: int)
    requires n < 0 || |found| <= n
    ensures ParseLimited(remaining, found, parse, n).Ok? <==>
            var r := Parse(remaining, found, parse);
            r.Ok? && (n < 0 || |r.value| <= n)
    ensures ParseLimited(remaining, found, parse, n).Ok? ==>
              ParseLimited(remaining, found, parse, n) == Parse(remaining, found, parse)
    decreases |remaining|
  {
    if remaining == [] {
    } else {
      if |found| == n {
        if Parse(remaining, found, parse).Ok? {
          ParseGrows(remaining, found, parse);
        }
      } else if Pem.Decode(remaining).Some? {
        var (block, rest) := Pem.Decode(remaining).value;
        if parse(block.contents).Some? {
          ParseLimitedIs(rest, found + [parse(block.contents).value], parse, n);
        }
      }
    }
  }

  // What stops the reader: text that is no block, or a block that is no certificate.
  lemma FirstBlockErrors<C>(pem: bytes, parse: bytes -> Option<C>)
    ensures var text := TrimSpace(pem);
            && (text == [] ==> Unmarshalled(pem, parse) == Ok([]))
            && (text != [] && Pem.Decode(text).None? ==> Unmarshalled(pem, parse) == Err(PemDecoding))
            && (text != [] && Pem.Decode(text).Some? && parse(Pem.Decode(text).value.0.contents).None? ==>
                  Unmarshalled(pem, parse) == Err(CertificateParsing))
    ensures Unmarshalled(pem, parse).Err? ==> Unmarshalled(pem, parse).error in {PemDecoding, CertificateParsing}
  {
    hide Pem.Decode, TrimSpace;
    ParseErrors(TrimSpace(pem), [], parse);
  }

  lemma {:induction false} ParseErrors<C>(remaining: bytes, found: seq<C>, parse: bytes -> Option<C>)
    ensures Parse(remaining, found, parse).Err? ==>
              Parse(remaining, found, parse).error in {PemDecoding, CertificateParsing}
    decreases |remaining|
  {
    hide Pem.Decode;
    if remaining == [] {
    } else if Pem.Decode(remaining).Some? && parse(Pem.Decode(remaining).value.0.contents).Some? {
      var (block, rest) := Pem.Decode(remaining).value;
      ParseErrors(rest, found + [parse(block.contents).value], parse);
    }
  }

  // The limited reader accepts exactly what the unlimited one accepts with at most that many
  // certificates; a negative limit is none at all.
  lemma LimitedIffAtMost<C>(pem: bytes, parse: bytes -> Option<C>, iterations: int)
    ensures UnmarshalledLimited(pem, parse, iterations).Ok? <==>
            var r := Unmarshalled(pem, parse);
            r.Ok? && (iterations < 0 || |r.value| <= iterations)
    ensures UnmarshalledLimited(pem, parse, iterations).Ok? ==>
              UnmarshalledLimited(pem, parse, iterations) == Unmarshalled(pem, parse)
  {
    ParseLimitedIs(TrimSpace(pem), [], parse, iterations);
  }

  // ----- the round trip

  // The marshalled list without its final line break, which is all that TrimSpace removes.
  function MarshalledOpen<C>(certs: seq<C>, raw: C -> bytes): bytes
    requires certs != []
  {
    var block := CertificateBlock(certs[0], raw);
    if |certs| == 1 then Pem.EncodeOpen(block) else Pem.Encode(block) + MarshalledOpen(certs[1..], raw)
  }

  lemma {:induction false} OpenEnds<C>(certs: seq<C>, raw: C -> bytes)
    requires certs != []
    ensures var s := MarshalledOpen(certs, raw);
            && Marshalled(certs, raw) == s + [Pem.LF]
            && s != [] && Plain(s[0]) && Plain(s[|s| - 1])
  {
    var block := CertificateBlock(certs[0], raw);
    BlockEnds(block);
    hide Pem.EncodeOpen;
    if |certs| == 1 {
      assert Marshalled(certs[1..], raw) == [];
      assert Marshalled(certs, raw) == Pem.Encode(block);
    } else {
      OpenEnds(certs[1..], raw);
      var s := MarshalledOpen(certs[1..], raw);
      assert Pem.Encode(block) + (s + [Pem.LF]) == (Pem.Encode(block) + s) + [Pem.LF];
    }
  }

  lemma BlockEnds(block: Pem.Block)
    ensures var s := Pem.EncodeOpen(block);
            s != [] && s[0] == Pem.DASH && s[|s| - 1] == Pem.DASH
  {
    Pem.Markers();
  }

  lemma TrimOneBreak(s: bytes)
    requires s != [] && Plain(s[0]) && Plain(s[|s| - 1])
    ensures TrimSpace(s + [Pem.LF]) == s
  {
    var t := s + [Pem.LF];
    assert t[..|t| - 1] == s;
    assert TrimLeft(t) == t;
    assert TrimRight(t) == TrimRight(s);
  }

  lemma ParseStep<C>(s: bytes, rest: bytes, cert: C, found: seq<C>, raw: C -> bytes, parse: bytes -> Option<C>)
    requires s != [] && Pem.Decode(s) == Some((CertificateBlock(cert, raw), rest))
    requires parse(raw(cert)) == Some(cert)
    ensures Parse(s, found, parse) == Parse(rest, found + [cert], parse)
  {
  }

  lemma DecodeMarshalled<C>(certs: seq<C>, raw: C -> bytes)
    requires certs != []
    ensures Pem.Decode(MarshalledOpen(certs, raw)) ==
            Some((CertificateBlock(certs[0], raw), if |certs| == 1 then [] else MarshalledOpen(certs[1..], raw)))
  {
    hide Pem.Decode, Pem.EncodeOpen, Pem.Encode, Ascii;
    var block := CertificateBlock(certs[0], raw);
    CertificateIsPlain();
    if |certs| == 1 {
      Pem.DecodeEncoded(block, []);
      assert Pem.EncodeOpen(block) + [] == Pem.EncodeOpen(block);
    } else {
      Pem.DecodeEncodedThen(block, MarshalledOpen(certs[1..], raw));
    }
  }

  lemma {:induction false} ParseMarshalled<C>(certs: seq<C>, found: seq<C>, raw: C -> bytes, parse: bytes -> Option<C>)
    requires certs != []
    requires forall i :: 0 <= i < |certs| ==> parse(raw(certs[i])) == Some(certs[i])
    ensures Parse(MarshalledOpen(certs, raw), found, parse) == Ok(found + certs)
  {
    hide Pem.Decode, MarshalledOpen;
    var rest := if |certs| == 1 then [] else MarshalledOpen(certs[1..], raw);
    DecodeMarshalled(certs, raw);
    OpenEnds(certs, raw);
    ParseStep(MarshalledOpen(certs, raw), rest, certs[0], found, raw, parse);
    if |certs| == 1 {
      assert certs == [certs[0]];
    } else {
      ParseMarshalled(certs[1..], found + [certs[0]], raw, parse);
      assert found + [certs[0]] + certs[1..] == found + certs;
    }
  }

  lemma CertificateIsPlain()
    ensures Pem.PlainKind(CERTIFICATE)
  {
  }

  // Unmarshalling the PEM of a list returns the list, in order.
  lemma RoundTrip<C>(certs: seq<C>, raw: C -> bytes, parse: bytes -> Option<C>)
    requires forall i :: 0 <= i < |certs| ==> parse(raw(certs[i])) == Some(certs[i])
    ensures Unmarshalled(Marshalled(certs, raw), parse) == Ok(certs)
  {
    if certs == [] {
      NothingMarshalled(raw, parse);
    } else {
      SomethingMarshalled(certs, raw, parse);
    }
  }

  lemma NothingMarshalled<C>(raw: C -> bytes, parse: bytes -> Option<C>)
    ensures Unmarshalled(Marshalled([], raw), parse) == Ok([])
  {
    assert TrimSpace([]) == [];
  }

  lemma OpenTrimmed<C>(certs: seq<C>, raw: C -> bytes, parse: bytes -> Option<C>)
    requires certs != []
    ensures Unmarshalled(Marshalled(certs, raw), parse) == Parse(MarshalledOpen(certs, raw), [], parse)
  {
    hide Parse, MarshalledOpen, Marshalled, TrimSpace;
    OpenEnds(certs, raw);
    TrimOneBreak(MarshalledOpen(certs, raw));
  }

  lemma SomethingMarshalled<C>(certs: seq<C>, raw: C -> bytes, parse: bytes -> Option<C>)
    requires certs != []
    requires forall i :: 0 <= i < |certs| ==> parse(raw(certs[i])) == Some(certs[i])
    ensures Unmarshalled(Marshalled(certs, raw), parse) == Ok(certs)
  {
    hide Parse, MarshalledOpen, Marshalled, Unmarshalled, TrimSpace;
    OpenTrimmed(certs, raw, parse);
    ParseMarshalled(certs, [], raw, parse);
    assert [] + certs == certs;
  }

  // ----- white space around the text

  // The code points with the White_Space property.
  predicate White(c: nat) {
    || 0x09 <= c <= 0x0D || c == 0x20 || c == 0x85 || c == 0xA0 || c == 0x1680 || 0x2000 <= c <= 0x200A
    || c == 0x2028 || c == 0x2029 || c == 0x202F || c == 0x205F || c == 0x3000
  }

  predicate AllWhite(ws: seq<nat>)
    ensures AllWhite(ws) ==> Utf8.AllScalars(ws)
  {
    forall i :: 0 <= i < |ws| ==> White(ws[i])
  }

  // Exactly these are trimmed, at either end.
  lemma LeadingSpaceIs(c: nat, t: bytes)
    requires Utf8.Scalar(c)
    ensures LeadingSpace(Utf8.Encode(c) + t) == if White(c) then |Utf8.Encode(c)| else 0
  {
    var e := Utf8.Encode(c);
    assert forall i :: 0 <= i < |e| ==> (e + t)[i] == e[i];
  }

  lemma TrailingSpaceIs(t: bytes, c: nat)
    requires Utf8.Scalar(c)
    ensures TrailingSpace(t + Utf8.Encode(c)) == if White(c) then |Utf8.Encode(c)| else 0
  {
    var e := Utf8.Encode(c);
    assert forall i :: 0 <= i < |e| ==> (t + e)[|t| + i] == e[i];
  }

  lemma {:induction false} TrimLeftWhite(ws: seq<nat>, s: bytes)
    requires AllWhite(ws)
    ensures TrimLeft(Utf8.Text(ws) + s) == TrimLeft(s)
  {
    hide Utf8.Encode, LeadingSpace, White;
    if ws == [] {
      assert Utf8.Text(ws) + s == s;
    } else {
      var rest := Utf8.Text(ws[1..]) + s;
      assert Utf8.Text(ws) + s == Utf8.Encode(ws[0]) + rest;
      LeadingSpaceIs(ws[0], rest);
      TrimLeftWhite(ws[1..], s);
      assert (Utf8.Encode(ws[0]) + rest)[|Utf8.Encode(ws[0])|..] == rest;
    }
  }

  lemma {:induction false} TextSnoc(cs: seq<nat>)
    requires cs != [] && Utf8.AllScalars(cs)
    ensures Utf8.Text(cs) == Utf8.Text(cs[..|cs| - 1]) + Utf8.Encode(cs[|cs| - 1])
  {
    hide Utf8.Encode;
    if |cs| == 1 {
      assert Utf8.Text(cs) == Utf8.Encode(cs[0]) + [];
    } else {
      TextSnoc(cs[1..]);
      assert cs[..|cs| - 1][1..] == cs[1..][..|cs| - 2];
    }
  }

  lemma TrimRightStep(t: bytes, c: nat)
    requires White(c)
    ensures TrimRight(t + Utf8.Encode(c)) == TrimRight(t)
  {
    TrailingSpaceIs(t, c);
    hide Utf8.Encode, TrailingSpace, White;
    var e := Utf8.Encode(c);
    assert (t + e)[..|t + e| - |e|] == t;
  }

  lemma {:induction false} TrimRightWhite(s: bytes, ws: seq<nat>)
    requires AllWhite(ws)
    ensures TrimRight(s + Utf8.Text(ws)) == TrimRight(s)
  {
    hide TrimRight, Utf8.Encode, White;
    if ws == [] {
      assert s + Utf8.Text(ws) == s;
    } else {
      var n := |ws| - 1;
      TextSnoc(ws);
      TrimRightWhite(s, ws[..n]);
      TrimRightStep(s + Utf8.Text(ws[..n]), ws[n]);
      assert s + Utf8.Text(ws) == (s + Utf8.Text(ws[..n])) + Utf8.Encode(ws[n]);
    }
  }

  lemma TrimPlain(s: bytes)
    requires s != [] && Plain(s[0])
    ensures TrimLeft(s) == s
  {
  }

  lemma TrimPadded(before: seq<nat>, s: bytes, after: seq<nat>)
    requires AllWhite(before) && AllWhite(after) && (s != [] ==> Plain(s[0]))
    ensures TrimSpace(Utf8.Text(before) + (s + Utf8.Text(after))) == TrimSpace(s)
  {
    hide TrimLeft, TrimRight, AllWhite, Plain, Utf8.Text;
    TrimLeftWhite(before, s + Utf8.Text(after));
    if s == [] {
      TrimLeftWhite(after, []);
      assert Utf8.Text(after) + [] == s + Utf8.Text(after);
    } else {
      TrimPlain(s);
      TrimPlain(s + Utf8.Text(after));
      TrimRightWhite(s, after);
    }
  }

  // Any white space before and after the PEM of a list, several line breaks included, is of no account.
  lemma RoundTripPadded<C>(before: seq<nat>, certs: seq<C>, after: seq<nat>, raw: C -> bytes, parse: bytes -> Option<C>)
    requires AllWhite(before) && AllWhite(after)
    requires forall i :: 0 <= i < |certs| ==> parse(raw(certs[i])) == Some(certs[i])
    ensures Unmarshalled(Utf8.Text(before) + (Marshalled(certs, raw) + Utf8.Text(after)), parse) == Ok(certs)
  {
    hide TrimSpace, Marshalled, MarshalledOpen, Parse, AllWhite, Plain, Utf8.Text;
    if certs == [] {
      NothingFrom(raw);
    } else {
      OpenEnds(certs, raw);
    }
    TrimPadded(before, Marshalled(certs, raw), after);
    RoundTrip(certs, raw, parse);
  }

  // One certificate, in ASCII: the lines hold the base64 of its DER.
  lemma Layout<C>(cert: C, raw: C -> bytes)
    ensures Marshalled([cert], raw) ==
            Ascii("-----BEGIN CERTIFICATE-----") + [0x0A] + Pem.Lines(Pem.Base64.Encode(raw(cert)))
            + Ascii("-----END CERTIFICATE-----") + [0x0A]
  {
    hide Pem.Encode, Pem.Lines, Pem.Base64.Encode, Ascii;
    assert [cert][1..] == [];
    assert Marshalled([cert], raw) == Pem.Encode(CertificateBlock(cert, raw)) + [];
    Pem.Layout(CertificateBlock(cert, raw));
    Marker("-----BEGIN ");
    Marker("-----END ");
    assert "-----BEGIN " + "CERTIFICATE" + "-----" == "-----BEGIN CERTIFICATE-----";
    assert "-----END " + "CERTIFICATE" + "-----" == "-----END CERTIFICATE-----";
  }

  lemma Marker(front: string)
    ensures Ascii(front + "CERTIFICATE" + "-----") == Ascii(front) + CERTIFICATE + Ascii("-----")
  {
    hide Ascii;
    AsciiConcat(front, "CERTIFICATE");
    AsciiConcat(front + "CERTIFICATE", "-----");
  }

  lemma AsciiConcat(s: string, t: string)
    ensures Ascii(s + t) == Ascii(s) + Ascii(t)
  {
  }
}
