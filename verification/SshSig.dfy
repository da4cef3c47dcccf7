/** pkg/signature/ssh: armored signatures, the signed preimage, and the two ways of signing. Public keys
    are an abstract type K with its wire form; signing and verifying are functions of the signed data. */
module SshSig {
  import opened Wrappers
  import opened Bytes
  import opened SshWire
  import Pem

  const NAMESPACE: bytes := Ascii("file")
  const PEM_TYPE: bytes := Ascii("SSH SIGNATURE")
  const MAGIC_HEADER: bytes := Ascii("SSHSIG")
  const SHA256: bytes := Ascii("sha256")
  const SHA512: bytes := Ascii("sha512")

  datatype Decoded<K> = Decoded(signature: Signature, pk: K, hashAlg: bytes)

  datatype SshError =
    | NoPemBlock
    | WrongPemType
    | MalformedWrapper
    | UnsupportedVersion
    | InvalidMagicHeader
    | InvalidNamespace
    | UnsupportedHash
    | MalformedSignature
    | MalformedKey
    | SigningFailed
    | SignatureRejected

  // ----- armor.go

  function Wrap(publicKey: bytes, reserved: bytes, sig: Signature): WrappedSig {
    WrappedSig(MAGIC_HEADER, 1, publicKey, NAMESPACE, reserved, SHA512, MarshalSignature(sig))
  }

  function Armor<K>(sig: Signature, pk: K, marshalKey: K -> bytes): bytes {
    Pem.Encode(Pem.Block(PEM_TYPE, MarshalWrapped(Wrap(marshalKey(pk), [], sig))))
  }

  function DecodeWrapped<K>(w: WrappedSig, parseKey: bytes -> Option<K>): Result<Decoded<K>, SshError> {
    if w.version != 1 then Err(UnsupportedVersion)
    else if w.magicHeader != MAGIC_HEADER then Err(InvalidMagicHeader)
    else if w.namespace != NAMESPACE then Err(InvalidNamespace)
    else if w.hashAlgorithm != SHA256 && w.hashAlgorithm != SHA512 then Err(UnsupportedHash)
    else
      match UnmarshalSignature(w.signature)
      case None => Err(MalformedSignature)
      case Some(sig) =>
        match parseKey(w.publicKey)
        case None => Err(MalformedKey)
        case Some(pk) => Ok(Decoded(sig, pk, w.hashAlgorithm))
  }

  function Decode<K>(b: bytes, parseKey: bytes -> Option<K>): Result<Decoded<K>, SshError> {
    match Pem.Decode(b)
    case None => Err(NoPemBlock)
    case Some((block, _)) =>
      if block.kind != PEM_TYPE then Err(WrongPemType)
      else
        match UnmarshalWrapped(block.contents)
        case None => Err(MalformedWrapper)
        case Some(w) => DecodeWrapped(w, parseKey)
  }

  // Every length the wire form has to carry.
  predicate FitsWire(publicKey: bytes, sig: Signature) {
    && |publicKey| < UINT32_LIMIT
    && |sig.format| < UINT32_LIMIT
    && |sig.blob| < UINT32_LIMIT
    && |MarshalSignature(sig)| < UINT32_LIMIT
  }

  lemma ConstantLengths()
    ensures |NAMESPACE| == 4 && |MAGIC_HEADER| == 6 && |SHA256| == 6 && |SHA512| == 6
    ensures SHA256 != SHA512
    ensures Pem.PlainKind(PEM_TYPE)
  {
    assert SHA256[3] == 50 && SHA512[3] == 53;
  }

  // Any text after the armor is ignored, and so is the content of the reserved field, although the
  // package's documentation says it must be empty.
  lemma DecodeBlock<K>(publicKey: bytes, reserved: bytes, sig: Signature, tail: bytes, parseKey: bytes -> Option<K>)
    requires FitsWire(publicKey, sig) && |reserved| < UINT32_LIMIT
    ensures var armored := Pem.Encode(Pem.Block(PEM_TYPE, MarshalWrapped(Wrap(publicKey, reserved, sig))));
            Decode(armored + tail, parseKey) ==
            (match parseKey(publicKey)
             case None => Err(MalformedKey)
             case Some(pk) => Ok(Decoded(sig, pk, SHA512)))
  {
    hide Pem.Encode, Pem.Decode, MarshalWrapped, UnmarshalWrapped, MarshalSignature, UnmarshalSignature, Ascii;
    ConstantLengths();
    var w := Wrap(publicKey, reserved, sig);
    Pem.DecodeEncodedThen(Pem.Block(PEM_TYPE, MarshalWrapped(w)), tail);
    WrappedRoundTrip(w);
    SignatureRoundTrip(sig);
  }

  // The armor gives back the signature (format, blob and rest), the key and the hash name.
  lemma ArmorRoundTrip<K>(sig: Signature, pk: K, marshalKey: K -> bytes, parseKey: bytes -> Option<K>)
    requires FitsWire(marshalKey(pk), sig)
    requires parseKey(marshalKey(pk)) == Some(pk)
    ensures Decode(Armor(sig, pk, marshalKey), parseKey) == Ok(Decoded(sig, pk, SHA512))
  {
    hide Pem.Encode, Pem.Decode, MarshalWrapped, MarshalSignature, Ascii;
    var armored := Armor(sig, pk, marshalKey);
    DecodeBlock(marshalKey(pk), [], sig, [], parseKey);
    assert armored + [] == armored;
  }

  // What is refused, and how: no PEM block, a block of another type, and a blob whose version, magic, name
  // space or hash is another.
  lemma DecodeRefuses<K>(b: bytes, parseKey: bytes -> Option<K>)
    ensures Pem.Decode(b).None? ==> Decode(b, parseKey) == Err(NoPemBlock)
    ensures Pem.Decode(b).Some? ==>
              var block := Pem.Decode(b).value.0;
              var w := UnmarshalWrapped(block.contents);
              && (block.kind != Ascii("SSH SIGNATURE") ==> Decode(b, parseKey) == Err(WrongPemType))
              && (block.kind == Ascii("SSH SIGNATURE") && w.None? ==> Decode(b, parseKey) == Err(MalformedWrapper))
              && (Decode(b, parseKey).Ok? ==>
                    && block.kind == Ascii("SSH SIGNATURE") && w.Some?
                    && w.value.version == 1 && w.value.magicHeader == Ascii("SSHSIG")
                       && w.value.namespace == Ascii("file")
                    && w.value.hashAlgorithm in [Ascii("sha256"), Ascii("sha512")]
                    && UnmarshalSignature(w.value.signature) == Some(Decode(b, parseKey).value.signature)
                    && parseKey(w.value.publicKey) == Some(Decode(b, parseKey).value.pk)
                    && Decode(b, parseKey).value.hashAlg == w.value.hashAlgorithm)
  {
    hide Pem.Decode, UnmarshalWrapped, UnmarshalSignature, Ascii;
  }

  // ----- the signed preimage

  function Preimage(hashAlg: bytes, hash: bytes): bytes {
    MAGIC_HEADER + Strings([NAMESPACE, [], hashAlg, hash])
  }

  lemma PreimageShape(hashAlg: bytes, hash: bytes)
    ensures |Preimage(hashAlg, hash)| == 26 + |hashAlg| + |hash|
  {
    hide Uint32, Ascii;
    ConstantLengths();
    var ss: seq<bytes> := [NAMESPACE, [], hashAlg, hash];
    assert ss[1..] == [[], hashAlg, hash];
    assert ss[1..][1..] == [hashAlg, hash];
    assert [hashAlg, hash][1..] == [hash];
    assert Strings([hash]) == SshString(hash) + Strings([hash][1..]);
    assert Strings([hashAlg, hash]) == SshString(hashAlg) + Strings([hash]);
    assert Strings(ss[1..]) == SshString([]) + Strings([hashAlg, hash]);
    assert Strings(ss) == SshString(NAMESPACE) + Strings(ss[1..]);
  }

  lemma ConstantOctets()
    ensures MAGIC_HEADER == [0x53, 0x53, 0x48, 0x53, 0x49, 0x47]
    ensures NAMESPACE == [0x66, 0x69, 0x6C, 0x65]
    ensures SHA512 == [0x73, 0x68, 0x61, 0x35, 0x31, 0x32]
    ensures SHA256 == [0x73, 0x68, 0x61, 0x32, 0x35, 0x36]
    ensures PEM_TYPE == [0x53, 0x53, 0x48, 0x20, 0x53, 0x49, 0x47, 0x4E, 0x41, 0x54, 0x55, 0x52, 0x45]
  {
  }

  lemma PreimageParts(hashAlg: bytes, hash: bytes)
    ensures Preimage(hashAlg, hash) ==
            MAGIC_HEADER + (SshString(NAMESPACE) + (SshString([]) + (SshString(hashAlg) + SshString(hash))))
  {
    hide SshString, Ascii;
    var ss: seq<bytes> := [NAMESPACE, [], hashAlg, hash];
    assert ss[1..][1..] == ss[2..] && ss[2..][1..] == ss[3..] && ss[3..][1..] == [];
    assert Strings(ss[3..]) == SshString(hash) + [];
    assert Strings(ss[2..]) == SshString(hashAlg) + Strings(ss[3..]);
    assert Strings(ss[1..]) == SshString([]) + Strings(ss[2..]);
  }

  // SSHSIG, "file", an empty string, the hash's name and the hash, each string behind its length.
  lemma Preimage512(hash: bytes)
    requires |hash| == 64
    ensures Preimage(SHA512, hash) ==
            [0x53, 0x53, 0x48, 0x53, 0x49, 0x47] + [0, 0, 0, 4, 0x66, 0x69, 0x6C, 0x65] + [0, 0, 0, 0]
            + [0, 0, 0, 6, 0x73, 0x68, 0x61, 0x35, 0x31, 0x32] + [0, 0, 0, 0x40] + hash
  {
    hide Preimage, Ascii, Uint32;
    PreimageParts(SHA512, hash);
    ConstantOctets();
    Uint32Octets(4);
    Uint32Octets(0);
    Uint32Octets(6);
    Uint32Octets(64);
  }

  lemma Preimage256(hash: bytes)
    requires |hash| == 32
    ensures Preimage(SHA256, hash) ==
            [0x53, 0x53, 0x48, 0x53, 0x49, 0x47] + [0, 0, 0, 4, 0x66, 0x69, 0x6C, 0x65] + [0, 0, 0, 0]
            + [0, 0, 0, 6, 0x73, 0x68, 0x61, 0x32, 0x35, 0x36] + [0, 0, 0, 0x20] + hash
  {
    hide Preimage, Ascii, Uint32;
    PreimageParts(SHA256, hash);
    ConstantOctets();
    Uint32Octets(4);
    Uint32Octets(0);
    Uint32Octets(6);
    Uint32Octets(32);
  }

  lemma PreimageInjective(alg1: bytes, hash1: bytes, alg2: bytes, hash2: bytes)
    requires |alg1| < UINT32_LIMIT && |hash1| < UINT32_LIMIT && |alg2| < UINT32_LIMIT && |hash2| < UINT32_LIMIT
    ensures Preimage(alg1, hash1) == Preimage(alg2, hash2) <==> alg1 == alg2 && hash1 == hash2
  {
    hide Strings, ReadStrings, Ascii;
    ConstantLengths();
    var ss1, ss2: seq<bytes> := [NAMESPACE, [], alg1, hash1], [NAMESPACE, [], alg2, hash2];
    ReadStringsOf(ss1);
    ReadStringsOf(ss2);
    assert Preimage(alg1, hash1)[6..] == Strings(ss1);
    assert Preimage(alg2, hash2)[6..] == Strings(ss2);
    if Preimage(alg1, hash1) == Preimage(alg2, hash2) {
      assert ss1 == ss2;
      assert ss1[2] == ss2[2] && ss1[3] == ss2[3];
    }
  }

  // ----- sign.go and verify.go

  datatype Algorithm = Default | RsaSha512

  datatype Hashes = Hashes(sha256: bytes -> bytes, sha512: bytes -> bytes)

  ghost predicate FixedSizes(h: Hashes) {
    forall m :: |h.sha256(m)| == 32 && |h.sha512(m)| == 64
  }

  // A private key: its public half and what signing some data with an algorithm gives.
  datatype Key<K> = Key(pub: K, isRsa: bool, sign: (bytes, Algorithm) -> Option<Signature>)

  // How keys travel, and the check of a signature over some data under one public key.
  datatype Scheme<!K> = Scheme(
    marshalKey: K -> bytes,
    parseKey: bytes -> Option<K>,
    verify: (K, bytes, Signature) -> bool)

  function Sign<K>(key: Key<K>, message: bytes, h: Hashes, scheme: Scheme<K>): Result<bytes, SshError> {
    match key.sign(Preimage(SHA512, h.sha512(message)), if key.isRsa then RsaSha512 else Default)
    case None => Err(SigningFailed)
    case Some(sig) => Ok(Armor(sig, key.pub, scheme.marshalKey))
  }

  function HashWith(hashAlg: bytes, message: bytes, h: Hashes): bytes {
    if hashAlg == SHA256 then h.sha256(message) else h.sha512(message)
  }

  function Verify<K>(message: bytes, armored: bytes, pk: K, h: Hashes, scheme: Scheme<K>): Result<(), SshError> {
    match Decode(armored, scheme.parseKey)
    case Err(e) => Err(e)
    case Ok(d) =>
      if scheme.verify(pk, Preimage(d.hashAlg, HashWith(d.hashAlg, message, h)), d.signature)
      then Ok(())
      else Err(SignatureRejected)
  }

  // Signer.SignMessage signs the message itself; Signer.VerifySignature is Verify with the signer's key.
  function SignMessage<K>(key: Key<K>, message: bytes, scheme: Scheme<K>): Result<bytes, SshError> {
    match key.sign(message, Default)
    case None => Err(SigningFailed)
    case Some(sig) => Ok(Armor(sig, key.pub, scheme.marshalKey))
  }

  function VerifySignature<K>(key: Key<K>, armored: bytes, message: bytes, h: Hashes,
                              scheme: Scheme<K>): Result<(), SshError>
  {
    Verify(message, armored, key.pub, h, scheme)
  }

  // The laws of a signature scheme for one key: what it signs travels, and verifies on the signed data.
  ghost predicate Lawful<K>(key: Key<K>, scheme: Scheme<K>) {
    && scheme.parseKey(scheme.marshalKey(key.pub)) == Some(key.pub)
    && (forall data, alg :: key.sign(data, alg).Some? ==>
          && FitsWire(scheme.marshalKey(key.pub), key.sign(data, alg).value)
          && scheme.verify(key.pub, data, key.sign(data, alg).value))
  }

  // No signature verifies on data other than what was signed.
  ghost predicate Unforgeable<K>(key: Key<K>, scheme: Scheme<K>) {
    forall data, alg, other :: key.sign(data, alg).Some? && other != data ==>
      !scheme.verify(key.pub, other, key.sign(data, alg).value)
  }

  // The octets that are signed, with the algorithm for RSA keys that RFC 8332 adds.
  lemma SignsSshsigData<K>(key: Key<K>, message: bytes, h: Hashes, scheme: Scheme<K>)
    requires |h.sha512(message)| == 64
    ensures var data: bytes :=
              [0x53, 0x53, 0x48, 0x53, 0x49, 0x47] + [0, 0, 0, 4, 0x66, 0x69, 0x6C, 0x65] + [0, 0, 0, 0]
              + [0, 0, 0, 6, 0x73, 0x68, 0x61, 0x35, 0x31, 0x32] + [0, 0, 0, 0x40] + h.sha512(message);
            var sig := if key.isRsa then key.sign(data, RsaSha512) else key.sign(data, Default);
            Sign(key, message, h, scheme) ==
            if sig.None? then Err(SigningFailed) else Ok(Armor(sig.value, key.pub, scheme.marshalKey))
  {
    hide Preimage, Armor;
    Preimage512(h.sha512(message));
  }

  // The octets that a signature is checked on, under either hash that its armor can name.
  lemma VerifiesSshsigData<K>(message: bytes, armored: bytes, pk: K, h: Hashes, scheme: Scheme<K>)
    requires Decode(armored, scheme.parseKey).Ok? && FixedSizes(h)
    ensures var d := Decode(armored, scheme.parseKey).value;
            var front: bytes :=
              [0x53, 0x53, 0x48, 0x53, 0x49, 0x47] + [0, 0, 0, 4, 0x66, 0x69, 0x6C, 0x65] + [0, 0, 0, 0];
            var data512 := front + [0, 0, 0, 6, 0x73, 0x68, 0x61, 0x35, 0x31, 0x32] + [0, 0, 0,
                                                                                       0x40] + h.sha512(message);
            var data256 := front + [0, 0, 0, 6, 0x73, 0x68, 0x61, 0x32, 0x35, 0x36] + [0, 0, 0,
                                                                                       0x20] + h.sha256(message);
            || (&& d.hashAlg == [0x73, 0x68, 0x61, 0x35, 0x31, 0x32]
                && Verify(message, armored, pk, h, scheme).Ok? == scheme.verify(pk, data512, d.signature))
            || (&& d.hashAlg == [0x73, 0x68, 0x61, 0x32, 0x35, 0x36]
                && Verify(message, armored, pk, h, scheme).Ok? == scheme.verify(pk, data256, d.signature))
  {
    hide Preimage, Pem.Decode, UnmarshalWrapped, UnmarshalSignature, Ascii;
    ConstantOctets();
    Preimage512(h.sha512(message));
    Preimage256(h.sha256(message));
  }

  // The blob inside the armor, field by field as in PROTOCOL.sshsig.
  lemma ArmorOctets<K>(sig: Signature, pk: K, marshalKey: K -> bytes)
    ensures var key := marshalKey(pk);
            var inner := SshString(sig.format) + SshString(sig.blob) + sig.rest;
            var blob: bytes :=
              [0x53, 0x53, 0x48, 0x53, 0x49, 0x47] + [0, 0, 0, 1] + SshString(key)
              + [0, 0, 0, 4, 0x66, 0x69, 0x6C, 0x65] + [0, 0, 0, 0] + [0, 0, 0, 6, 0x73, 0x68, 0x61, 0x35, 0x31, 0x32]
              + SshString(inner);
            Armor(sig, pk, marshalKey) ==
            Pem.Encode(Pem.Block([0x53, 0x53, 0x48, 0x20, 0x53, 0x49, 0x47, 0x4E, 0x41, 0x54, 0x55, 0x52, 0x45], blob))
  {
    hide Pem.Encode, Ascii, Uint32;
    ConstantOctets();
    Uint32Octets(1);
    Uint32Octets(4);
    Uint32Octets(0);
    Uint32Octets(6);
    var inner := SshString(sig.format) + SshString(sig.blob) + sig.rest;
    assert MarshalSignature(sig) == inner;
    Flatten(MAGIC_HEADER, Uint32(1), SshString(marshalKey(pk)), SshString(NAMESPACE), SshString([]), SshString(SHA512),
            SshString(inner));
    assert SshString(NAMESPACE) == [0, 0, 0, 4, 0x66, 0x69, 0x6C, 0x65];
    assert SshString([]) == [0, 0, 0, 0];
    assert SshString(SHA512) == [0, 0, 0, 6, 0x73, 0x68, 0x61, 0x35, 0x31, 0x32];
    var blob := MarshalWrapped(Wrap(marshalKey(pk), [], sig));
    assert blob == MAGIC_HEADER + Uint32(1) + SshString(marshalKey(pk)) + SshString(NAMESPACE) + SshString([])
                   + SshString(SHA512) + SshString(inner);
  }

  lemma Flatten(a: bytes, b: bytes, c: bytes, d: bytes, e: bytes, f: bytes, g: bytes)
    ensures a + (b + (c + (d + (e + (f + (g + [])))))) == a + b + c + d + e + f + g
  {
  }

  // What the package-level Sign makes, the package-level Verify accepts.
  lemma SignVerifies<K>(key: Key<K>, message: bytes, h: Hashes, scheme: Scheme<K>)
    requires Lawful(key, scheme)
    requires Sign(key, message, h, scheme).Ok?
    ensures Verify(message, Sign(key, message, h, scheme).value, key.pub, h, scheme) == Ok(())
  {
    hide Decode, Armor, Preimage, Ascii;
    ConstantLengths();
    var alg := if key.isRsa then RsaSha512 else Default;
    var sig := key.sign(Preimage(SHA512, h.sha512(message)), alg).value;
    ArmorRoundTrip(sig, key.pub, scheme.marshalKey, scheme.parseKey);
  }

  // A message signed by Sign is accepted for no message of another hash.
  lemma SignBindsHash<K>(key: Key<K>, message: bytes, other: bytes, h: Hashes, scheme: Scheme<K>)
    requires Lawful(key, scheme) && Unforgeable(key, scheme) && FixedSizes(h)
    requires Sign(key, message, h, scheme).Ok?
    ensures Verify(other, Sign(key, message, h, scheme).value, key.pub, h, scheme).Ok? <==>
            h.sha512(other) == h.sha512(message)
  {
    hide Decode, Armor, Preimage, Ascii;
    ConstantLengths();
    var alg := if key.isRsa then RsaSha512 else Default;
    var sig := key.sign(Preimage(SHA512, h.sha512(message)), alg).value;
    ArmorRoundTrip(sig, key.pub, scheme.marshalKey, scheme.parseKey);
    PreimageInjective(SHA512, h.sha512(message), SHA512, h.sha512(other));
  }

  // SignMessage and VerifySignature of one Signer disagree on what is signed: the pair accepts exactly
  // the messages that are their own preimage, so none of a length other than 96.
  lemma SignMessageVerifiesOnlyPreimages<K>(key: Key<K>, message: bytes, h: Hashes, scheme: Scheme<K>)
    requires Lawful(key, scheme) && Unforgeable(key, scheme) && FixedSizes(h)
    requires SignMessage(key, message, scheme).Ok?
    ensures VerifySignature(key, SignMessage(key, message, scheme).value, message, h, scheme).Ok? <==>
            message == Preimage(SHA512, h.sha512(message))
    ensures |message| != 96 ==>
              VerifySignature(key, SignMessage(key, message, scheme).value, message, h, scheme) ==
                Err(SignatureRejected)
  {
    hide Decode, Armor, Preimage, Ascii;
    ConstantLengths();
    var sig := key.sign(message, Default).value;
    ArmorRoundTrip(sig, key.pub, scheme.marshalKey, scheme.parseKey);
    PreimageShape(SHA512, h.sha512(message));
  }
}
