/** SSH data types (section 5 of RFC 4251) and the structures of the sshsig protocol built from them. */
module SshWire {
  import opened Wrappers
  import opened Bytes

  const UINT32_LIMIT: nat := 0x1_0000_0000

  // A length or version; larger numbers wrap, as the conversion to uint32 does.
  function Uint32(n: nat): (bs: bytes)
    ensures |bs| == 4
  {
    FixedWidth(n % UINT32_LIMIT, 4)
  }

  // Section 5 of RFC 4251, octet by octet.
  lemma Uint32Octets(n: nat)
    requires n < UINT32_LIMIT
    ensures Uint32(n) == [n / 0x100_0000, n / 0x1_0000 % 256, n / 0x100 % 256, n % 256]
  {
    assert FixedWidth(n, 4) == FixedWidth(n / 256, 3) + [n % 256];
    assert FixedWidth(n / 256, 3) == FixedWidth(n / 256 / 256, 2) + [n / 256 % 256];
    assert FixedWidth(n / 256 / 256, 2) == FixedWidth(n / 256 / 256 / 256, 1) + [n / 256 / 256 % 256];
    assert FixedWidth(n / 256 / 256 / 256, 1) == FixedWidth(n / 256 / 256 / 256 / 256, 0) + [n / 256 / 256 / 256 % 256];
  }

  function SshString(s: bytes): bytes {
    Uint32(|s|) + s
  }

  function ReadUint32(bs: bytes): Option<(nat, bytes)> {
    if |bs| < 4 then None else Some((FromBigEndian(bs[..4]), bs[4..]))
  }

  function ReadString(bs: bytes): Option<(bytes, bytes)> {
    match ReadUint32(bs)
    case None => None
    case Some((n, rest)) => if |rest| < n then None else Some((rest[..n], rest[n..]))
  }

  lemma ReadUint32Of(n: nat, rest: bytes)
    ensures ReadUint32(Uint32(n) + rest) == Some((n % UINT32_LIMIT, rest))
  {
    var bs := Uint32(n) + rest;
    assert Pow256(4) == UINT32_LIMIT;
    FromFixedWidth(n % UINT32_LIMIT, 4);
    assert bs[..4] == Uint32(n) && bs[4..] == rest;
  }

  // A string reads back exactly when its length does not wrap.
  lemma ReadStringOf(s: bytes, rest: bytes)
    ensures ReadString(SshString(s) + rest) == Some((s, rest)) <==> |s| < UINT32_LIMIT
  {
    assert SshString(s) + rest == Uint32(|s|) + (s + rest);
    ReadUint32Of(|s|, s + rest);
    if |s| < UINT32_LIMIT {
      assert (s + rest)[..|s|] == s && (s + rest)[|s|..] == rest;
    }
  }

  // ----- ssh.Signature: the rest is whatever follows the two strings

  datatype Signature = Signature(format: bytes, blob: bytes, rest: bytes)

  function MarshalSignature(sig: Signature): bytes {
    SshString(sig.format) + (SshString(sig.blob) + sig.rest)
  }

  function UnmarshalSignature(bs: bytes): Option<Signature> {
    match ReadString(bs)
    case None => None
    case Some((format, bs')) =>
      match ReadString(bs')
      case None => None
      case Some((blob, rest)) => Some(Signature(format, blob, rest))
  }

  lemma SignatureRoundTrip(sig: Signature)
    requires |sig.format| < UINT32_LIMIT && |sig.blob| < UINT32_LIMIT
    ensures UnmarshalSignature(MarshalSignature(sig)) == Some(sig)
  {
    hide SshString, ReadString;
    ReadStringOf(sig.format, SshString(sig.blob) + sig.rest);
    ReadStringOf(sig.blob, sig.rest);
  }

  // ----- wrappedSig

  datatype WrappedSig = WrappedSig(
    magicHeader: bytes,
    version: nat,
    publicKey: bytes,
    namespace: bytes,
    reserved: bytes,
    hashAlgorithm: bytes,
    signature: bytes)

  function MarshalWrapped(w: WrappedSig): bytes {
    w.magicHeader + (Uint32(w.version) + (SshString(w.publicKey) + (SshString(w.namespace) +
    (SshString(w.reserved) + (SshString(w.hashAlgorithm) + (SshString(w.signature) + []))))))
  }

  // A fixed list of strings that must be all of the input.
  function ReadStrings(bs: bytes, count: nat): Option<seq<bytes>> {
    if count == 0 then
      if bs == [] then Some([]) else None
    else
      match ReadString(bs)
      case None => None
      case Some((s, rest)) =>
        match ReadStrings(rest, count - 1)
        case None => None
        case Some(ss) => Some([s] + ss)
  }

  function UnmarshalWrapped(bs: bytes): Option<WrappedSig> {
    if |bs| < 6 then None
    else
      match ReadUint32(bs[6..])
      case None => None
      case Some((version, rest)) =>
        match ReadStrings(rest, 5)
        case None => None
        case Some(ss) =>
          ReadStringsCount(rest, 5);
          Some(WrappedSig(bs[..6], version, ss[0], ss[1], ss[2], ss[3], ss[4]))
  }

  lemma {:induction false} ReadStringsCount(bs: bytes, count: nat)
    ensures ReadStrings(bs, count).Some? ==> |ReadStrings(bs, count).value| == count
  {
    if count == 0 || ReadString(bs).None? {
    } else {
      ReadStringsCount(ReadString(bs).value.1, count - 1);
    }
  }

  function Strings(ss: seq<bytes>): bytes {
    if ss == [] then [] else SshString(ss[0]) + Strings(ss[1..])
  }

  lemma {:induction false} ReadStringsOf(ss: seq<bytes>)
    requires forall i :: 0 <= i < |ss| ==> |ss[i]| < UINT32_LIMIT
    ensures ReadStrings(Strings(ss), |ss|) == Some(ss)
  {
    if ss == [] {
    } else {
      hide ReadString, SshString;
      ReadStringOf(ss[0], Strings(ss[1..]));
      ReadStringsOf(ss[1..]);
      assert ss == [ss[0]] + ss[1..];
    }
  }

  function Fields(w: WrappedSig): seq<bytes> {
    [w.publicKey, w.namespace, w.reserved, w.hashAlgorithm, w.signature]
  }

  lemma FiveStrings(w: WrappedSig)
    ensures MarshalWrapped(w) == w.magicHeader + (Uint32(w.version) + Strings(Fields(w)))
  {
    hide SshString, Uint32;
    var ss: seq<bytes> := Fields(w);
    assert ss[4..] == [w.signature];
    assert ss[5..] == [];
    assert ss[4..][1..] == ss[5..];
    assert ss[3..][1..] == ss[4..];
    assert ss[2..][1..] == ss[3..];
    assert ss[1..][1..] == ss[2..];
    assert Strings(ss[4..]) == SshString(w.signature) + [];
    assert Strings(ss[3..]) == SshString(w.hashAlgorithm) + Strings(ss[4..]);
    assert Strings(ss[2..]) == SshString(w.reserved) + Strings(ss[3..]);
    assert Strings(ss[1..]) == SshString(w.namespace) + Strings(ss[2..]);
  }

  lemma WrappedRoundTrip(w: WrappedSig)
    requires |w.magicHeader| == 6 && w.version < UINT32_LIMIT
    requires forall i :: 0 <= i < 5 ==> |Fields(w)[i]| < UINT32_LIMIT
    ensures UnmarshalWrapped(MarshalWrapped(w)) == Some(w)
  {
    hide ReadStrings, Strings, ReadUint32, Uint32, MarshalWrapped;
    FiveStrings(w);
    ReadStringsOf(Fields(w));
    var tail := Uint32(w.version) + Strings(Fields(w));
    ReadUint32Of(w.version, Strings(Fields(w)));
    assert (w.magicHeader + tail)[6..] == tail;
    assert (w.magicHeader + tail)[..6] == w.magicHeader;
  }
}
