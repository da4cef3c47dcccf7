/** Well-formed UTF-8 (section 4 of RFC 3629): shortest forms only, no surrogates, nothing above U+10FFFF. */
module Utf8 {
  import opened Bytes

  predicate Valid(bs: bytes) {
    ValidFrom(bs, 0)
  }

  predicate Continuation(bs: bytes, i: nat, low: nat, high: nat) {
    i < |bs| && low <= bs[i] <= high
  }

  predicate ValidFrom(bs: bytes, i: nat)
    requires i <= |bs|
    decreases |bs| - i
  {
    if i == |bs| then true
    else
      var b := bs[i];
      if b < 128 then ValidFrom(bs, i + 1)
      else if 194 <= b < 224 then Continuation(bs, i + 1, 128, 191) && ValidFrom(bs, i + 2)
      else if 224 <= b < 240 then
        && Continuation(bs, i + 1, if b == 224 then 160 else 128, if b == 237 then 159 else 191)
        && Continuation(bs, i + 2, 128, 191)
        && ValidFrom(bs, i + 3)
      else if 240 <= b < 245 then
        && Continuation(bs, i + 1, if b == 240 then 144 else 128, if b == 244 then 143 else 191)
        && Continuation(bs, i + 2, 128, 191)
        && Continuation(bs, i + 3, 128, 191)
        && ValidFrom(bs, i + 4)
      else false
  }

  // ----- the same, said by the encoder

  // The code points that have an encoding.
  predicate Scalar(c: nat) {
    c < 0xD800 || 0xE000 <= c < 0x11_0000
  }

  // Section 3 of RFC 3629.
  function Encode(c: nat): (bs: bytes)
    requires c < 0x11_0000
    ensures 1 <= |bs| <= 4
  {
    if c < 0x80 then [c]
    else if c < 0x800 then [0xC0 + c / 64, 0x80 + c % 64]
    else if c < 0x1_0000 then [0xE0 + c / 4096, 0x80 + c / 64 % 64, 0x80 + c % 64]
    else [0xF0 + c / 262144, 0x80 + c / 4096 % 64, 0x80 + c / 64 % 64, 0x80 + c % 64]
  }

  predicate AllScalars(cs: seq<nat>) {
    forall i :: 0 <= i < |cs| ==> Scalar(cs[i])
  }

  function Text(cs: seq<nat>): bytes
    requires AllScalars(cs)
  {
    if cs == [] then [] else Encode(cs[0]) + Text(cs[1..])
  }

  lemma {:induction false} Shift(bs: bytes, i: nat, j: nat)
    requires i + j <= |bs|
    ensures ValidFrom(bs, i + j) == ValidFrom(bs[i..], j)
    decreases |bs| - i - j
  {
    if i + j == |bs| {
    } else {
      assert forall k :: 0 <= k < |bs| - i ==> bs[i..][k] == bs[i + k];
      if i + j + 1 <= |bs| { Shift(bs, i, j + 1); }
      if i + j + 2 <= |bs| { Shift(bs, i, j + 2); }
      if i + j + 3 <= |bs| { Shift(bs, i, j + 3); }
      if i + j + 4 <= |bs| { Shift(bs, i, j + 4); }
    }
  }

  lemma EncodeStartsValid(c: nat, t: bytes)
    requires Scalar(c) && Valid(t)
    ensures Valid(Encode(c) + t)
  {
    hide ValidFrom;
    var bs, k := Encode(c) + t, |Encode(c)|;
    Shift(bs, k, 0);
    assert bs[k..] == t;
    FirstIsValid(bs, c);
  }

  lemma FirstIsValid(bs: bytes, c: nat)
    requires Scalar(c) && |Encode(c)| <= |bs| && bs[..|Encode(c)|] == Encode(c)
    requires ValidFrom(bs, |Encode(c)|)
    ensures ValidFrom(bs, 0)
  {
    var e := Encode(c);
    assert forall i :: 0 <= i < |e| ==> bs[i] == e[i];
    if c < 0x800 {
    } else if c < 0x1_0000 {
      ThreeOctets(c);
    } else {
      FourOctets(c);
    }
  }

  lemma ThreeOctets(c: nat)
    requires Scalar(c) && 0x800 <= c < 0x1_0000
    ensures var e := Encode(c);
            && |e| == 3 && 224 <= e[0] < 240
            && (if e[0] == 224 then 160 else 128) <= e[1] <= (if e[0] == 237 then 159 else 191)
            && 128 <= e[2] <= 191
  {
  }

  lemma FourOctets(c: nat)
    requires Scalar(c) && 0x1_0000 <= c
    ensures var e := Encode(c);
            && |e| == 4 && 240 <= e[0] < 245
            && (if e[0] == 240 then 144 else 128) <= e[1] <= (if e[0] == 244 then 143 else 191)
            && 128 <= e[2] <= 191 && 128 <= e[3] <= 191
  {
  }

  lemma OneOctet(b: byte)
    requires b < 128
    ensures Scalar(b) && Encode(b) == [b]
  {
  }

  lemma TwoOctetsBack(b: int, b1: int)
    requires 194 <= b < 224 && 128 <= b1 <= 191
    ensures var c := (b - 192) * 64 + (b1 - 128);
            c >= 0 && Scalar(c) && Encode(c) == [b, b1]
  {
  }

  lemma ThreeOctetsBack(b: int, b1: int, b2: int)
    requires 224 <= b < 240 && 128 <= b2 <= 191
    requires (if b == 224 then 160 else 128) <= b1 <= (if b == 237 then 159 else 191)
    ensures var c := (b - 224) * 4096 + (b1 - 128) * 64 + (b2 - 128);
            c >= 0 && Scalar(c) && Encode(c) == [b, b1, b2]
  {
    var d := (b - 224) * 64 + (b1 - 128);
    var c := d * 64 + (b2 - 128);
    assert 0x800 <= c < 0x1_0000;
    assert c / 64 == d && c % 64 == b2 - 128 && d % 64 == b1 - 128 && c / 4096 == b - 224;
  }

  lemma FourOctetsBack(b: int, b1: int, b2: int, b3: int)
    requires 240 <= b < 245 && 128 <= b2 <= 191 && 128 <= b3 <= 191
    requires (if b == 240 then 144 else 128) <= b1 <= (if b == 244 then 143 else 191)
    ensures var c := (b - 240) * 262144 + (b1 - 128) * 4096 + (b2 - 128) * 64 + (b3 - 128);
            c >= 0 && Scalar(c) && Encode(c) == [b, b1, b2, b3]
  {
    var f := (b - 240) * 64 + (b1 - 128);
    var d := f * 64 + (b2 - 128);
    var c := d * 64 + (b3 - 128);
    assert 0x1_0000 <= c < 0x11_0000;
    assert c / 64 == d && c % 64 == b3 - 128 && d % 64 == b2 - 128;
    assert c / 4096 == f && f % 64 == b1 - 128;
    assert c / 262144 == b - 240;
  }

  // The first code point of a valid text.
  lemma FirstScalar(bs: bytes) returns (c: nat)
    requires bs != [] && ValidFrom(bs, 0)
    ensures Scalar(c) && |Encode(c)| <= |bs| && bs[..|Encode(c)|] == Encode(c)
    ensures ValidFrom(bs, |Encode(c)|)
  {
    hide Encode, Scalar;
    var b: int := bs[0];
    if b < 128 {
      OneOctet(b);
      c := b;
    } else if b < 224 {
      var b1: int := bs[1];
      TwoOctetsBack(b, b1);
      c := (b - 192) * 64 + (b1 - 128);
    } else if b < 240 {
      var b1: int, b2: int := bs[1], bs[2];
      ThreeOctetsBack(b, b1, b2);
      c := (b - 224) * 4096 + (b1 - 128) * 64 + (b2 - 128);
    } else {
      var b1: int, b2: int, b3: int := bs[1], bs[2], bs[3];
      FourOctetsBack(b, b1, b2, b3);
      c := (b - 240) * 262144 + (b1 - 128) * 4096 + (b2 - 128) * 64 + (b3 - 128);
    }
  }

  lemma {:induction false} TextIsValid(cs: seq<nat>)
    requires AllScalars(cs)
    ensures Valid(Text(cs))
  {
    hide ValidFrom;
    if cs == [] {
      NothingIsValid();
    } else {
      TextIsValid(cs[1..]);
      EncodeStartsValid(cs[0], Text(cs[1..]));
    }
  }

  lemma NothingIsValid()
    ensures Valid([])
  {
  }

  lemma {:induction false} ValidIsText(bs: bytes) returns (cs: seq<nat>)
    requires Valid(bs)
    ensures AllScalars(cs) && bs == Text(cs)
    decreases |bs|
  {
    hide ValidFrom, Encode;
    if bs == [] {
      cs := [];
    } else {
      var c := FirstScalar(bs);
      var k := |Encode(c)|;
      Shift(bs, k, 0);
      var rest := ValidIsText(bs[k..]);
      cs := [c] + rest;
      assert cs[1..] == rest && bs == Encode(c) + bs[k..];
    }
  }

  // A byte string is well-formed exactly when it is the encoding of some code points.
  lemma ValidIff(bs: bytes)
    ensures Valid(bs) <==> exists cs :: AllScalars(cs) && bs == Text(cs)
  {
    if Valid(bs) {
      var cs := ValidIsText(bs);
    }
    if cs :| AllScalars(cs) && bs == Text(cs) {
      TextIsValid(cs);
    }
  }
}
