/** Byte strings and the big-endian naturals that every wire format here is built on. */
module Bytes {
  type byte = b: int | 0 <= b < 256
  type bytes = seq<byte>

  function Pow256(n: nat): (p: nat)
    ensures p > 0
  {
    if n == 0 then 1 else 256 * Pow256(n - 1)
  }

  // The number a big-endian byte string denotes (big.Int.SetBytes).
  function FromBigEndian(bs: bytes): nat {
    if bs == [] then 0 else FromBigEndian(bs[..|bs| - 1]) * 256 + bs[|bs| - 1]
  }

  // The shortest big-endian byte string of a number; zero is the empty string (big.Int.Bytes).
  function ToBigEndian(n: nat): bytes {
    if n == 0 then [] else ToBigEndian(n / 256) + [n % 256]
  }

  // The big-endian form padded on the left to exactly w bytes.
  function FixedWidth(n: nat, w: nat): (bs: bytes)
    ensures |bs| == w
  {
    if w == 0 then [] else FixedWidth(n / 256, w - 1) + [n % 256]
  }

  function StripZeros(bs: bytes): bytes {
    if bs != [] && bs[0] == 0 then StripZeros(bs[1..]) else bs
  }

  function LeadingZeros(bs: bytes): nat {
    if bs != [] && bs[0] == 0 then 1 + LeadingZeros(bs[1..]) else 0
  }

  lemma {:induction false} FromToBigEndian(n: nat)
    ensures FromBigEndian(ToBigEndian(n)) == n
  {
    if n == 0 {
    } else {
      FromToBigEndian(n / 256);
      assert ToBigEndian(n)[..|ToBigEndian(n)| - 1] == ToBigEndian(n / 256);
    }
  }

  lemma {:induction false} ToBigEndianHasNoLeadingZero(n: nat)
    requires n > 0
    ensures ToBigEndian(n) != [] && ToBigEndian(n)[0] != 0
  {
    if n >= 256 {
      ToBigEndianHasNoLeadingZero(n / 256);
    } else {
      assert ToBigEndian(n / 256) == [];
    }
  }

  lemma {:induction false} StripZerosSnoc(init: bytes, last: byte)
    ensures StripZeros(init + [last]) ==
            if StripZeros(init) == [] && last == 0 then [] else StripZeros(init) + [last]
  {
    if init != [] && init[0] == 0 {
      StripZerosSnoc(init[1..], last);
      assert (init + [last])[1..] == init[1..] + [last];
    } else if init == [] {
      assert init + [last] == [last];
      assert [last][1..] == [];
    }
  }

  // Reading a byte string as a number and writing it back drops the leading zero bytes, nothing else.
  lemma {:induction false} ToFromBigEndian(bs: bytes)
    ensures ToBigEndian(FromBigEndian(bs)) == StripZeros(bs)
    ensures FromBigEndian(bs) == 0 <==> StripZeros(bs) == []
  {
    if bs == [] {
    } else {
      var init, last := bs[..|bs| - 1], bs[|bs| - 1];
      ToFromBigEndian(init);
      StripZerosSnoc(init, last);
      assert bs == init + [last];
      var n := FromBigEndian(bs);
      assert n / 256 == FromBigEndian(init) && n % 256 == last;
    }
  }

  lemma {:induction false} StripZerosLength(bs: bytes)
    ensures |StripZeros(bs)| == |bs| - LeadingZeros(bs)
    ensures StripZeros(bs) == bs[LeadingZeros(bs)..]
    ensures LeadingZeros(bs) == 0 <==> bs == [] || bs[0] != 0
  {
    if bs == [] || bs[0] != 0 {
    } else {
      StripZerosLength(bs[1..]);
    }
  }

  lemma {:induction false} FromBigEndianBound(bs: bytes)
    ensures FromBigEndian(bs) < Pow256(|bs|)
  {
    if bs == [] {
    } else {
      FromBigEndianBound(bs[..|bs| - 1]);
    }
  }

  lemma {:induction false} ToBigEndianLength(n: nat, w: nat)
    ensures |ToBigEndian(n)| <= w <==> n < Pow256(w)
  {
    if n == 0 {
    } else if w == 0 {
    } else {
      ToBigEndianLength(n / 256, w - 1);
    }
  }

  lemma {:induction false} FromFixedWidth(n: nat, w: nat)
    requires n < Pow256(w)
    ensures FromBigEndian(FixedWidth(n, w)) == n
  {
    if w == 0 {
    } else {
      FromFixedWidth(n / 256, w - 1);
      assert FixedWidth(n, w)[..w - 1] == FixedWidth(n / 256, w - 1);
    }
  }

  // A non-zero byte at position i keeps the number at least that byte's own weight.
  lemma {:induction false} FromBigEndianAtLeast(bs: bytes, i: nat)
    requires i < |bs|
    ensures FromBigEndian(bs) >= bs[i] * Pow256(|bs| - 1 - i)
  {
    var init := bs[..|bs| - 1];
    if i < |bs| - 1 {
      FromBigEndianAtLeast(init, i);
      calc {
        bs[i] * Pow256(|bs| - 1 - i);
        bs[i] * (256 * Pow256(|bs| - 2 - i));
        (bs[i] * Pow256(|bs| - 2 - i)) * 256;
      }
    }
  }

  // Constants written as text, one byte per ASCII character.
  function Ascii(s: string): (bs: bytes)
    ensures |bs| == |s|
  {
    seq(|s|, i requires 0 <= i < |s| => s[i] as int % 256)
  }
}
