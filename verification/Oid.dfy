/** Object identifiers in DER (section 8.19 of X.690): base-128 arcs behind a combined first arc. */
module Oid {
  import opened Wrappers
  import opened Bytes
  import opened Der

  type oid = seq<nat>

  const ARC_LIMIT: nat := 0x8000_0000

  // Every septet of n but the last, each with its continuation bit.
  function HighSeptets(n: nat): bytes {
    if n == 0 then [] else HighSeptets(n / 128) + [128 + n % 128]
  }

  function EncodeBase128(n: nat): (bs: bytes)
    ensures bs != []
  {
    HighSeptets(n / 128) + [n % 128]
  }

  function EncodeArcs(arcs: seq<nat>): bytes {
    if arcs == [] then [] else EncodeBase128(arcs[0]) + EncodeArcs(arcs[1..])
  }

  predicate ValidOid(id: oid) {
    && |id| >= 2
    && id[0] <= 2
    && (id[0] < 2 ==> id[1] < 40)
    && 40 * id[0] + id[1] < ARC_LIMIT
    && forall i :: 2 <= i < |id| ==> id[i] < ARC_LIMIT
  }

  function EncodeOid(id: oid): bytes
    requires ValidOid(id)
  {
    EncodeArcs([40 * id[0] + id[1]] + id[2..])
  }

  function ParseArcs(bs: bytes): Option<seq<nat>>
    decreases |bs|
  {
    if bs == [] then Some([])
    else
      match ReadBase128(bs)
      case None => None
      case Some((n, rest)) =>
        match ParseArcs(rest)
        case None => None
        case Some(ns) => Some([n] + ns)
  }

  function ParseOid(bs: bytes): Option<oid> {
    match ParseArcs(bs)
    case Some(ns) =>
      if ns == [] then None
      else if ns[0] < 80 then Some([ns[0] / 40, ns[0] % 40] + ns[1..])
      else Some([2, ns[0] - 80] + ns[1..])
    case None => None
  }

  lemma {:induction false} HighSeptetsLength(n: nat, k: nat)
    requires k <= 4
    requires n < (match k case 0 => 1 case 1 => 128 case 2 => 16384 case 3 => 2097152 case _ => 268435456)
    ensures |HighSeptets(n)| <= k
  {
    if n == 0 {
    } else {
      HighSeptetsLength(n / 128, k - 1);
    }
  }

  lemma {:induction false} ReadHighSeptets(n: nat, tail: bytes)
    requires |HighSeptets(n)| < 5
    ensures ReadSeptets(HighSeptets(n) + tail, 0, 0) == ReadSeptets(tail, n, |HighSeptets(n)|)
    ensures n > 0 ==> HighSeptets(n)[0] != 128
  {
    if n == 0 {
      assert HighSeptets(n) + tail == tail;
    } else {
      var tail' := [128 + n % 128] + tail;
      ReadHighSeptets(n / 128, tail');
      assert HighSeptets(n) + tail == HighSeptets(n / 128) + tail';
      assert tail'[1..] == tail;
      assert (n / 128) * 128 + n % 128 == n;
    }
  }

  lemma ReadEncodedBase128(n: nat, rest: bytes)
    requires n < ARC_LIMIT
    ensures ReadBase128(EncodeBase128(n) + rest) == Some((n, rest))
  {
    var tail := [n % 128] + rest;
    HighSeptetsLength(n / 128, 4);
    ReadHighSeptets(n / 128, tail);
    assert EncodeBase128(n) + rest == HighSeptets(n / 128) + tail;
    assert tail[1..] == rest;
    assert (n / 128) * 128 + n % 128 == n;
  }

  lemma {:induction false} ParseEncodedArcs(arcs: seq<nat>)
    requires forall i :: 0 <= i < |arcs| ==> arcs[i] < ARC_LIMIT
    ensures ParseArcs(EncodeArcs(arcs)) == Some(arcs)
  {
    if arcs == [] {
    } else {
      ReadEncodedBase128(arcs[0], EncodeArcs(arcs[1..]));
      assert EncodeArcs(arcs) != [];
      assert arcs == [arcs[0]] + arcs[1..];
      ParseEncodedArcs(arcs[1..]);
    }
  }

  lemma ParseEncodedOid(id: oid)
    requires ValidOid(id)
    ensures ParseOid(EncodeOid(id)) == Some(id)
  {
    var arcs := [40 * id[0] + id[1]] + id[2..];
    ParseEncodedArcs(arcs);
    assert arcs[1..] == id[2..];
    assert id == [id[0], id[1]] + id[2..];
  }

  // A tag of 31 and more follows its first octet in base 128.
  lemma ReadHighTag(id: byte, tag: nat, rest: bytes)
    requires id % 32 == 31 && tag < ARC_LIMIT
    ensures ReadTag([id] + EncodeBase128(tag) + rest) == if tag >= 31 then Some((tag, rest)) else None
  {
    hide EncodeBase128;
    ReadEncodedBase128(tag, rest);
    assert ([id] + EncodeBase128(tag) + rest)[1..] == EncodeBase128(tag) + rest;
  }

  // ----- nothing else parses

  lemma {:induction false} SeptetsInverse(bs: bytes, acc: nat, shifted: nat)
    requires ReadSeptets(bs, acc, shifted).Some? && (acc > 0 || bs[0] != 128)
    ensures var (n, rest) := ReadSeptets(bs, acc, shifted).value;
            HighSeptets(acc) + bs == EncodeBase128(n) + rest
    decreases |bs|
  {
    var (n, rest) := ReadSeptets(bs, acc, shifted).value;
    if bs[0] < 128 {
      assert bs == [bs[0]] + bs[1..];
    } else {
      var acc1 := acc * 128 + (bs[0] - 128);
      assert acc1 / 128 == acc && acc1 % 128 == bs[0] - 128;
      SeptetsInverse(bs[1..], acc1, shifted + 1);
      assert HighSeptets(acc1) == HighSeptets(acc) + [bs[0]];
      assert HighSeptets(acc) + bs == HighSeptets(acc1) + bs[1..];
    }
  }

  lemma {:induction false} SeptetsBound(bs: bytes, acc: nat, shifted: nat)
    requires ReadSeptets(bs, acc, shifted).Some?
    ensures ReadSeptets(bs, acc, shifted).value.0 < ARC_LIMIT
    decreases |bs|
  {
    if bs[0] < 128 {
    } else {
      SeptetsBound(bs[1..], acc * 128 + (bs[0] - 128), shifted + 1);
    }
  }

  lemma {:induction false} ArcsInverse(bs: bytes)
    requires ParseArcs(bs).Some?
    ensures EncodeArcs(ParseArcs(bs).value) == bs
    ensures forall i :: 0 <= i < |ParseArcs(bs).value| ==> ParseArcs(bs).value[i] < ARC_LIMIT
    decreases |bs|
  {
    hide ReadSeptets, HighSeptets;
    if bs == [] {
    } else {
      var (n, rest) := ReadBase128(bs).value;
      SeptetsInverse(bs, 0, 0);
      SeptetsBound(bs, 0, 0);
      NoHighSeptets();
      assert [] + bs == bs;
      ArcsInverse(rest);
      assert ParseArcs(bs).value[1..] == ParseArcs(rest).value;
    }
  }

  lemma NoHighSeptets()
    ensures HighSeptets(0) == []
  {
  }

  // The contents octets that parse are exactly the encodings.
  lemma ParseOidIff(bs: bytes, id: oid)
    ensures ParseOid(bs) == Some(id) <==> ValidOid(id) && bs == EncodeOid(id)
  {
    hide EncodeArcs, ParseArcs;
    if ParseOid(bs) == Some(id) {
      ArcsInverse(bs);
      var ns := ParseArcs(bs).value;
      assert [40 * id[0] + id[1]] + id[2..] == ns;
    }
    if ValidOid(id) && bs == EncodeOid(id) {
      ParseEncodedOid(id);
    }
  }
}
