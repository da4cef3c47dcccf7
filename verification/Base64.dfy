/** Standard base64 with padding (section 4 of RFC 4648), read the lenient way: line breaks anywhere
    and unused trailing bits are ignored. */
module Base64 {
  import opened Wrappers
  import opened Bytes

  type sextet = i: int | 0 <= i < 64

  const PAD: byte := 61

  function EncodeSextet(i: sextet): (c: byte)
    ensures c != PAD && DecodeSextet(c) == Some(i)
    ensures Letter(c)
  {
    if i < 26 then 65 + i
    else if i < 52 then 71 + i
    else if i < 62 then i - 4
    else if i == 62 then 43
    else 47
  }

  // The alphabet of section 4 of RFC 4648, in order.
  lemma Alphabet(i: sextet)
    ensures i < 26 ==> EncodeSextet(i) == 'A' as int + i
    ensures 26 <= i < 52 ==> EncodeSextet(i) == 'a' as int + (i - 26)
    ensures 52 <= i < 62 ==> EncodeSextet(i) == '0' as int + (i - 52)
    ensures i == 62 ==> EncodeSextet(i) == '+' as int
    ensures i == 63 ==> EncodeSextet(i) == '/' as int
  {
  }

  function DecodeSextet(c: byte): Option<sextet> {
    if 65 <= c <= 90 then Some(c - 65)
    else if 97 <= c <= 122 then Some(c - 71)
    else if 48 <= c <= 57 then Some(c + 4)
    else if c == 43 then Some(62)
    else if c == 47 then Some(63)
    else None
  }

  lemma OnlyAlphabet(c: byte)
    ensures DecodeSextet(c).Some? ==> EncodeSextet(DecodeSextet(c).value) == c
  {
  }

  // The characters of encoded text: no white space, no dash, no colon.
  predicate Letter(c: byte) {
    DecodeSextet(c).Some? || c == PAD
  }

  predicate Letters(s: bytes) {
    forall i :: 0 <= i < |s| ==> Letter(s[i])
  }

  function EncodeQuantum(a: byte, b: byte, c: byte): (s: bytes)
    ensures |s| == 4 && Letters(s)
  {
    [EncodeSextet(a / 4), EncodeSextet(a % 4 * 16 + b / 16), EncodeSextet(b % 16 * 4 + c / 64), EncodeSextet(c % 64)]
  }

  function Encode(bs: bytes): (s: bytes)
    ensures Letters(s)
    ensures s == [] <==> bs == []
  {
    if bs == [] then []
    else if |bs| == 1 then EncodeQuantum(bs[0], 0, 0)[..2] + [PAD, PAD]
    else if |bs| == 2 then EncodeQuantum(bs[0], bs[1], 0)[..3] + [PAD]
    else EncodeQuantum(bs[0], bs[1], bs[2]) + Encode(bs[3..])
  }

  function Octets(w: int, x: int, y: int, z: int): (bs: bytes)
    requires 0 <= w < 64 && 0 <= x < 64 && 0 <= y < 64 && 0 <= z < 64
    ensures |bs| == 3
  {
    [w * 4 + x / 16, x % 16 * 16 + y / 4, y % 4 * 64 + z]
  }

  // Four characters, with padding allowed only in the last quantum.
  function DecodeQuanta(s: bytes): Option<bytes> {
    if s == [] then Some([])
    else if |s| < 4 then None
    else
      match (DecodeSextet(s[0]), DecodeSextet(s[1]), DecodeSextet(s[2]), DecodeSextet(s[3]))
      case (Some(w), Some(x), Some(y), Some(z)) =>
        (match DecodeQuanta(s[4..])
         case None => None
         case Some(bs) => Some(Octets(w, x, y, z) + bs))
      case (Some(w), Some(x), Some(y), None) =>
        if s[3] == PAD && |s| == 4 then Some(Octets(w, x, y, 0)[..2]) else None
      case (Some(w), Some(x), None, _) =>
        if s[2] == PAD && s[3] == PAD && |s| == 4 then Some(Octets(w, x, 0, 0)[..1]) else None
      case _ => None
  }

  function Without(bs: bytes, c: byte, d: byte): bytes {
    if bs == [] then []
    else (if bs[0] == c || bs[0] == d then [] else [bs[0]]) + Without(bs[1..], c, d)
  }

  const CR: byte := 13
  const LF: byte := 10

  function Decode(s: bytes): Option<bytes> {
    DecodeQuanta(Without(s, CR, LF))
  }

  lemma OctetsOfQuantum(a: byte, b: byte, c: byte)
    ensures Octets(a / 4, a % 4 * 16 + b / 16, b % 16 * 4 + c / 64, c % 64) == [a, b, c]
  {
  }

  lemma DecodeQuantum(a: byte, b: byte, c: byte, rest: bytes)
    ensures var q := EncodeQuantum(a, b, c);
            && DecodeQuanta(q + rest) ==
               (match DecodeQuanta(rest)
                case None => None
                case Some(bs) => Some([a, b, c] + bs))
  {
    hide EncodeSextet, DecodeSextet;
    var q := EncodeQuantum(a, b, c);
    OctetsOfQuantum(a, b, c);
    assert (q + rest)[4..] == rest;
  }

  lemma DecodePadded(w: sextet, x: sextet, y: sextet)
    ensures DecodeQuanta([EncodeSextet(w), EncodeSextet(x), EncodeSextet(y), PAD]) == Some(Octets(w, x, y, 0)[..2])
    ensures DecodeQuanta([EncodeSextet(w), EncodeSextet(x), PAD, PAD]) == Some(Octets(w, x, 0, 0)[..1])
  {
    hide EncodeSextet, Octets;
  }

  lemma DecodeShort(a: byte, b: byte)
    ensures DecodeQuanta(EncodeQuantum(a, b, 0)[..3] + [PAD]) == Some([a, b])
    ensures DecodeQuanta(EncodeQuantum(a, 0, 0)[..2] + [PAD, PAD]) == Some([a])
  {
    hide EncodeSextet, DecodeQuanta, Octets;
    var w, x, y, x' := a / 4, a % 4 * 16 + b / 16, b % 16 * 4, a % 4 * 16;
    OctetsOfQuantum(a, b, 0);
    OctetsOfQuantum(a, 0, 0);
    DecodePadded(w, x, y);
    DecodePadded(w, x', 0);
    assert EncodeQuantum(a, b, 0)[..3] + [PAD] == [EncodeSextet(w), EncodeSextet(x), EncodeSextet(y), PAD];
    assert EncodeQuantum(a, 0, 0)[..2] + [PAD, PAD] == [EncodeSextet(w), EncodeSextet(x'), PAD, PAD];
    assert [a, b, 0][..2] == [a, b];
    assert [a, 0, 0][..1] == [a];
  }

  lemma {:induction false} DecodeEncode(bs: bytes)
    ensures DecodeQuanta(Encode(bs)) == Some(bs)
  {
    hide Octets, EncodeQuantum, DecodeQuanta;
    if bs == [] {
      DecodeNothing();
    } else if |bs| < 3 {
      DecodeShort(bs[0], if |bs| == 2 then bs[1] else 0);
      assert bs == if |bs| == 1 then [bs[0]] else [bs[0], bs[1]];
    } else {
      DecodeEncode(bs[3..]);
      DecodeQuantum(bs[0], bs[1], bs[2], Encode(bs[3..]));
      assert bs == [bs[0], bs[1], bs[2]] + bs[3..];
    }
  }

  lemma DecodeNothing()
    ensures DecodeQuanta([]) == Some([])
  {
  }

  lemma {:induction false} WithoutNothing(bs: bytes, c: byte, d: byte)
    requires forall i :: 0 <= i < |bs| ==> bs[i] != c && bs[i] != d
    ensures Without(bs, c, d) == bs
  {
    if bs == [] {
    } else {
      WithoutNothing(bs[1..], c, d);
    }
  }

  lemma {:induction false} WithoutAppend(xs: bytes, ys: bytes, c: byte, d: byte)
    ensures Without(xs + ys, c, d) == Without(xs, c, d) + Without(ys, c, d)
  {
    if xs == [] {
      assert xs + ys == ys;
    } else {
      assert (xs + ys)[1..] == xs[1..] + ys;
      WithoutAppend(xs[1..], ys, c, d);
      var h := if xs[0] == c || xs[0] == d then [] else [xs[0]];
      var t, u := Without(xs[1..], c, d), Without(ys, c, d);
      assert h + (t + u) == (h + t) + u;
    }
  }

  // Three octets and their four letters stand for the same 24-bit number, the first one first.
  lemma QuantumValue(a: byte, b: byte, c: byte)
    ensures exists w: sextet, x: sextet, y: sextet, z: sextet ::
              && EncodeQuantum(a, b, c) == [EncodeSextet(w), EncodeSextet(x), EncodeSextet(y), EncodeSextet(z)]
              && a * 65536 + b * 256 + c == w * 262144 + x * 4096 + y * 64 + z
  {
    var w: sextet, x: sextet, y: sextet, z: sextet := a / 4, a % 4 * 16 + b / 16, b % 16 * 4 + c / 64, c % 64;
    assert EncodeQuantum(a, b, c) == [EncodeSextet(w), EncodeSextet(x), EncodeSextet(y), EncodeSextet(z)];
  }

  // One or two octets at the end: their bits, zeros, and padding.
  lemma PaddedValue(a: byte, b: byte)
    ensures exists w: sextet, x: sextet ::
              && Encode([a]) == [EncodeSextet(w), EncodeSextet(x), '=' as int, '=' as int]
              && a * 16 == w * 64 + x
    ensures exists w: sextet, x: sextet, y: sextet ::
              && Encode([a, b]) == [EncodeSextet(w), EncodeSextet(x), EncodeSextet(y), '=' as int]
              && (a * 256 + b) * 4 == w * 4096 + x * 64 + y
  {
    var w: sextet, x: sextet := a / 4, a % 4 * 16;
    assert Encode([a]) == [EncodeSextet(w), EncodeSextet(x), PAD, PAD];
    var x': sextet, y: sextet := a % 4 * 16 + b / 16, b % 16 * 4;
    assert Encode([a, b]) == [EncodeSextet(w), EncodeSextet(x'), EncodeSextet(y), PAD];
  }

  // Whole groups of four letters, with at most two characters of padding, which end the text.
  predicate WellFormed(s: bytes) {
    && |s| % 4 == 0 && Letters(s)
    && (forall i :: 0 <= i < |s| - 2 ==> s[i] != '=' as int)
    && (s != [] && s[|s| - 2] == '=' as int ==> s[|s| - 1] == '=' as int)
  }

  // Exactly such texts are read, whatever the unused bits before the padding.
  lemma {:induction false} DecodesIff(s: bytes)
    ensures DecodeQuanta(s).Some? <==> WellFormed(s)
  {
    if |s| < 4 {
    } else if |s| == 4 {
      assert s[4..] == [];
    } else {
      DecodesIff(s[4..]);
      assert forall i :: 4 <= i < |s| ==> s[i] == s[4..][i - 4];
    }
  }
}
