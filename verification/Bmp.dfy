/** BMPString contents as `encoding/asn1` reads them in Go 1.24: big-endian UTF-16 (RFC 2781) without its
    terminator, re-encoded in UTF-8 (RFC 3629), with U+FFFD for every surrogate that has no partner. */
module Bmp {
  import opened Wrappers
  import opened Bytes
  import Utf8

  const REPLACEMENT: nat := 0xFFFD

  predicate High(u: nat) {
    0xD800 <= u < 0xDC00
  }

  predicate Low(u: nat) {
    0xDC00 <= u < 0xE000
  }

  function Units(bs: bytes): seq<nat>
    requires |bs| % 2 == 0
  {
    if bs == [] then []
    else
      var high: nat, low: nat := bs[0] as nat, bs[1] as nat;
      [256 * high + low] + Units(bs[2..])
  }

  function Text(us: seq<nat>): bytes
    requires forall i :: 0 <= i < |us| ==> us[i] < 0x1_0000
    decreases |us|
  {
    if us == [] then []
    else if High(us[0]) && |us| > 1 && Low(us[1]) then
      Utf8.Encode(0x1_0000 + (us[0] - 0xD800) * 1024 + (us[1] - 0xDC00)) + Text(us[2..])
    else if High(us[0]) || Low(us[0]) then Utf8.Encode(REPLACEMENT) + Text(us[1..])
    else Utf8.Encode(us[0]) + Text(us[1..])
  }

  lemma {:induction false} UnitsAreSmall(bs: bytes)
    requires |bs| % 2 == 0
    ensures forall i :: 0 <= i < |Units(bs)| ==> Units(bs)[i] < 0x1_0000
  {
    if bs == [] {
    } else {
      UnitsAreSmall(bs[2..]);
    }
  }

  function WithoutTerminator(bs: bytes): bytes {
    if |bs| >= 2 && bs[|bs| - 2..] == [0, 0] then bs[..|bs| - 2] else bs
  }

  function Decode(bs: bytes): Option<bytes> {
    if |bs| % 2 != 0 then None
    else
      UnitsAreSmall(WithoutTerminator(bs));
      Some(Text(Units(WithoutTerminator(bs))))
  }

  // The code points of some units, with a replacement for each lone surrogate.
  function CodePoints(us: seq<nat>): (cs: seq<nat>)
    requires forall i :: 0 <= i < |us| ==> us[i] < 0x1_0000
    ensures Utf8.AllScalars(cs)
    decreases |us|
  {
    if us == [] then []
    else if High(us[0]) && |us| > 1 && Low(us[1]) then
      [0x1_0000 + (us[0] - 0xD800) * 1024 + (us[1] - 0xDC00)] + CodePoints(us[2..])
    else if 0xD800 <= us[0] < 0xE000 then [0xFFFD] + CodePoints(us[1..])
    else [us[0]] + CodePoints(us[1..])
  }

  lemma {:induction false} TextIsUtf8(us: seq<nat>)
    requires forall i :: 0 <= i < |us| ==> us[i] < 0x1_0000
    ensures Text(us) == Utf8.Text(CodePoints(us))
    decreases |us|
  {
    if us == [] {
    } else if High(us[0]) && |us| > 1 && Low(us[1]) {
      TextIsUtf8(us[2..]);
      assert CodePoints(us)[1..] == CodePoints(us[2..]);
    } else {
      TextIsUtf8(us[1..]);
      assert CodePoints(us)[1..] == CodePoints(us[1..]);
    }
  }

  // What is read is always well-formed UTF-8, and of every string of whole units.
  lemma DecodeIsUtf8(bs: bytes)
    ensures Decode(bs).Some? <==> |bs| % 2 == 0
    ensures Decode(bs).Some? ==> Utf8.Valid(Decode(bs).value)
  {
    if |bs| % 2 == 0 {
      UnitsAreSmall(WithoutTerminator(bs));
      TextIsUtf8(Units(WithoutTerminator(bs)));
      Utf8.TextIsValid(CodePoints(Units(WithoutTerminator(bs))));
    }
  }

  // ----- text written as UTF-16 comes back

  function Unit(u: nat): bytes
    requires u < 0x1_0000
  {
    [u / 256, u % 256]
  }

  // Big-endian UTF-16 (section 2 of RFC 2781).
  function Utf16(cs: seq<nat>): (bs: bytes)
    requires Utf8.AllScalars(cs)
    ensures |bs| % 2 == 0
  {
    if cs == [] then []
    else if cs[0] < 0x1_0000 then Unit(cs[0]) + Utf16(cs[1..])
    else
      Unit(0xD800 + (cs[0] - 0x1_0000) / 0x400) + Unit(0xDC00 + (cs[0] - 0x1_0000) % 0x400) + Utf16(cs[1..])
  }

  lemma UnitsCons(u: nat, bs: bytes)
    requires u < 0x1_0000 && |bs| % 2 == 0
    ensures |Unit(u) + bs| % 2 == 0 && Units(Unit(u) + bs) == [u] + Units(bs)
  {
    var b := Unit(u) + bs;
    assert b[0] == u / 256 && b[1] == u % 256 && b[2..] == bs;
    assert 256 * (u / 256) + u % 256 == u;
  }

  lemma Surrogates(c: nat)
    requires 0x1_0000 <= c < 0x11_0000
    ensures var high, low := 0xD800 + (c - 0x1_0000) / 0x400, 0xDC00 + (c - 0x1_0000) % 0x400;
            High(high) && Low(low) && 0x1_0000 + (high - 0xD800) * 1024 + (low - 0xDC00) == c
  {
  }

  predicate Small(us: seq<nat>) {
    forall i :: 0 <= i < |us| ==> us[i] < 0x1_0000
  }

  lemma PointsCons(u: nat, us: seq<nat>)
    requires Small(us) && u < 0x1_0000 && Utf8.Scalar(u)
    ensures Small([u] + us) && CodePoints([u] + us) == [u] + CodePoints(us)
  {
    assert ([u] + us)[1..] == us;
  }

  lemma PointsPair(c: nat, high: nat, low: nat, us: seq<nat>)
    requires Small(us) && High(high) && Low(low) && c == 0x1_0000 + (high - 0xD800) * 1024 + (low - 0xDC00)
    ensures Small([high] + ([low] + us)) && CodePoints([high] + ([low] + us)) == [c] + CodePoints(us)
  {
    var all := [high] + ([low] + us);
    assert all[0] == high && all[1] == low && all[2..] == us;
  }

  lemma {:induction false} Utf16Points(cs: seq<nat>)
    requires Utf8.AllScalars(cs)
    ensures Small(Units(Utf16(cs))) && CodePoints(Units(Utf16(cs))) == cs
  {
    hide Units, Unit, CodePoints, Small, High, Low;
    if cs == [] {
      NothingPoints();
    } else {
      Utf16Points(cs[1..]);
      var c, rest := cs[0], Utf16(cs[1..]);
      assert cs == [c] + cs[1..];
      if c < 0x1_0000 {
        UnitsCons(c, rest);
        PointsCons(c, Units(rest));
      } else {
        var high, low := 0xD800 + (c - 0x1_0000) / 0x400, 0xDC00 + (c - 0x1_0000) % 0x400;
        assert Utf16(cs) == Unit(high) + (Unit(low) + rest);
        UnitsCons(low, rest);
        UnitsCons(high, Unit(low) + rest);
        Surrogates(c);
        PointsPair(c, high, low, Units(rest));
      }
    }
  }

  lemma NothingPoints()
    ensures Units(Utf16([])) == [] && Small([]) && CodePoints([]) == []
  {
  }

  lemma TerminatorGoes(bs: bytes)
    ensures WithoutTerminator(bs + [0, 0]) == bs
  {
    assert (bs + [0, 0])[..|bs + [0, 0]| - 2] == bs && (bs + [0, 0])[|bs + [0, 0]| - 2..] == [0, 0];
  }

  // Any text written as UTF-16, with a terminator, is read as the same text in UTF-8.
  lemma DecodeUtf16(cs: seq<nat>)
    requires Utf8.AllScalars(cs)
    ensures Decode(Utf16(cs) + [0, 0]) == Some(Utf8.Text(cs))
    ensures |Utf16(cs)| < 2 || Utf16(cs)[|Utf16(cs)| - 2..] != [0, 0] ==> Decode(Utf16(cs)) == Some(Utf8.Text(cs))
  {
    hide Units, CodePoints, Utf16, Text, Utf8.Text, WithoutTerminator;
    var bs := Utf16(cs);
    TerminatorGoes(bs);
    Utf16Points(cs);
    TextIsUtf8(Units(bs));
    Unterminated(bs);
  }

  lemma Unterminated(bs: bytes)
    ensures |bs| < 2 || bs[|bs| - 2..] != [0, 0] ==> WithoutTerminator(bs) == bs
  {
  }
}
