/** pkg/signature/message.go: which digest is signed or verified, and with which hash. */
module Digest {
  import opened Wrappers
  import opened Bytes
  import opened Options

  // The hash functions, as their output sizes and what they compute.
  datatype HashFunctions = HashFunctions(size: Hash -> nat, sum: (Hash, bytes) -> bytes)

  ghost predicate SizesHold(h: HashFunctions) {
    forall alg, m :: alg != NO_HASH ==> |h.sum(alg, m)| == h.size(alg)
  }

  datatype DigestError = UnsupportedHash | UnexpectedLength | NilMessage

  // The three named results; the digest and hash may be set although there is an error.
  datatype Computed = Computed(digest: Slice, hashedWith: Hash, err: Option<DigestError>)

  // A list of supported hashes; a nil one supports every hash.
  type Supported = Option<seq<Hash>>

  predicate IsSupportedAlg(alg: Hash, supported: Supported) {
    supported.None? || alg in supported.value
  }

  const ECDSA_HASHES: Supported := Some([SHA256, SHA512, SHA384, SHA224])
  const ECDSA_VERIFY_HASHES: Supported := Some([SHA256, SHA512, SHA384, SHA224, SHA1])

  function Length(s: Slice): nat {
    if s.Some? then |s.value| else 0
  }

  // hashMessage on a message that may be nil.
  function HashMessage(message: Slice, alg: Hash, h: HashFunctions): Computed {
    if message.None? then Computed(None, alg, Some(NilMessage))
    else if alg == NO_HASH then Computed(message, alg, None)
    else Computed(Some(h.sum(alg, message.value)), alg, None)
  }

  // What is known before the message is looked at: the outcome, or that the message is needed.
  datatype Selection = Settled(outcome: Computed) | FromMessage(alg: Hash)

  function Select(digest: Slice, alg: Hash, supported: Supported, h: HashFunctions): Selection {
    if !IsSupportedAlg(alg, supported) then Settled(Computed(None, NO_HASH, Some(UnsupportedHash)))
    else if Length(digest) > 0 then
      var wrong := alg != NO_HASH && Length(digest) != h.size(alg);
      Settled(Computed(digest, alg, if wrong then Some(UnexpectedLength) else None))
    else FromMessage(alg)
  }

  function Decide(message: Slice, digest: Slice, alg: Hash, supported: Supported, h: HashFunctions): Computed {
    match Select(digest, alg, supported, h)
    case Settled(c) => c
    case FromMessage(a) => HashMessage(message, a, h)
  }

  function Start(default: Hash): View {
    ZERO.(signerOpts := Some(HashOpts(default)))
  }

  // ComputeDigestForSigning and ComputeDigestForVerifying are this same code over two option types.
  function ComputeDigest(message: Slice, default: Hash, supported: Supported, opts: seq<Opt>,
                         h: HashFunctions): Computed
  {
    var v := Fold(opts, Start(default));
    Decide(message, v.digest, if v.signerOpts.Some? then v.signerOpts.value.hash else default, supported, h)
  }

  method ComputeDigestForSigning(message: Slice, default: Hash, supported: Supported, opts: seq<Opt>, h: HashFunctions)
    returns (r: Computed)
    ensures var a := Or(LastSignerOpts(opts), HashOpts(default)).hash;
            var given := Or(Or(LastDigest(opts), None), []);
            var allowed := supported.None? || a in supported.value;
            && (!allowed ==> r == Computed(None, NO_HASH, Some(UnsupportedHash)))
            && (allowed && given == [] && message.None? ==> r == Computed(None, a, Some(NilMessage)))
            && (allowed && given == [] && message.Some? ==>
                  r == Computed(Some(if a == NO_HASH then message.value else h.sum(a, message.value)), a, None))
            && (allowed && given != [] && (a == NO_HASH || |given| == h.size(a)) ==>
                r == Computed(Some(given), a, None))
            && (allowed && given != [] && a != NO_HASH && |given| != h.size(a) ==>
                  r == Computed(Some(given), a, Some(UnexpectedLength)))
    ensures r == ComputeDigest(message, default, supported, opts, h)
    ensures r.err.None? ==> r.digest.Some? && IsSupportedAlg(r.hashedWith, supported)
    ensures r.err.None? && r.hashedWith != NO_HASH && SizesHold(h) ==> |r.digest.value| == h.size(r.hashedWith)
    ensures r ==
            Decide(message, Or(LastDigest(opts), None), Or(LastSignerOpts(opts), HashOpts(default)).hash, supported, h)
  {
    var digest: Slice, cryptoSignerOpts := None, HashOpts(default);
    for i := 0 to |opts|
      invariant Fold(opts[..i], Start(default)).digest == digest
      invariant Fold(opts[..i], Start(default)).signerOpts == Some(cryptoSignerOpts)
    {
      FoldSnoc(opts, i, Start(default));
      match opts[i] {
        case WithDigest(d) => digest := d;
        case WithCryptoSignerOpts(o) => cryptoSignerOpts := Or(o, HashOpts(SHA256));
        case _ =>
      }
    }
    assert opts[..|opts|] == opts;
    FoldIsLast(opts, Start(default));
    var hashedWith := cryptoSignerOpts.hash;
    if !IsSupportedAlg(hashedWith, supported) {
      return Computed(None, NO_HASH, Some(UnsupportedHash));
    }
    if Length(digest) > 0 {
      if hashedWith != NO_HASH && Length(digest) != h.size(hashedWith) {
        return Computed(digest, hashedWith, Some(UnexpectedLength));
      }
      return Computed(digest, hashedWith, None);
    }
    return HashMessage(message, hashedWith, h);
  }

  // The same said of the function.
  lemma DigestIs(message: Slice, default: Hash, supported: Supported, opts: seq<Opt>, h: HashFunctions)
    ensures var r := ComputeDigest(message, default, supported, opts, h);
            var a := Or(LastSignerOpts(opts), HashOpts(default)).hash;
            var given := Or(Or(LastDigest(opts), None), []);
            var allowed := supported.None? || a in supported.value;
            && (!allowed ==> r == Computed(None, NO_HASH, Some(UnsupportedHash)))
            && (allowed && given == [] && message.None? ==> r == Computed(None, a, Some(NilMessage)))
            && (allowed && given == [] && message.Some? ==>
                  r == Computed(Some(if a == NO_HASH then message.value else h.sum(a, message.value)), a, None))
            && (allowed && given != [] && (a == NO_HASH || |given| == h.size(a)) ==>
                r == Computed(Some(given), a, None))
            && (allowed && given != [] && a != NO_HASH && |given| != h.size(a) ==>
                  r == Computed(Some(given), a, Some(UnexpectedLength)))
  {
    FoldIsLast(opts, Start(default));
  }

  // Only the last digest and the last signer options matter.
  lemma OnlyLastMatters(message: Slice, default: Hash, supported: Supported, xs: seq<Opt>, ys: seq<Opt>,
                        h: HashFunctions)
    requires LastDigest(xs) == LastDigest(ys)
    requires LastSignerOpts(xs) == LastSignerOpts(ys)
    ensures ComputeDigest(message, default, supported, xs, h) == ComputeDigest(message, default, supported, ys, h)
  {
    FoldIsLast(xs, Start(default));
    FoldIsLast(ys, Start(default));
  }

  // A caller that folds the options itself and passes the hash it ends with as the default changes
  // nothing, whatever other variables it folds along.
  lemma PreApplied(message: Slice, caller: View, supported: Supported, opts: seq<Opt>, h: HashFunctions)
    requires caller.signerOpts.Some?
    ensures var folded := Fold(opts, caller);
            && folded.signerOpts.Some?
            && ComputeDigest(message, folded.signerOpts.value.hash, supported, opts, h)
               == ComputeDigest(message, caller.signerOpts.value.hash, supported, opts, h)
  {
    FoldIsLast(opts, caller);
    FoldIsLast(opts, Start(caller.signerOpts.value.hash));
    FoldIsLast(opts, Start(Fold(opts, caller).signerOpts.value.hash));
  }

  predicate Contains(supported: Supported, fewer: Supported) {
    supported.None? || (fewer.Some? && forall alg :: alg in fewer.value ==> alg in supported.value)
  }

  // Signing succeeds exactly when verifying with the same options does and the hash is one for signing;
  // both then get the same digest and hash.
  lemma SigningIsVerifying(message: Slice, default: Hash, signing: Supported, verifying: Supported, opts: seq<Opt>,
                           h: HashFunctions)
    requires Contains(verifying, signing)
    ensures var s := ComputeDigest(message, default, signing, opts, h);
            var v := ComputeDigest(message, default, verifying, opts, h);
            && (s.err.None? <==> v.err.None? && IsSupportedAlg(v.hashedWith, signing))
            && (s.err.None? ==> s == v)
  {
  }

  // Verifying with the same options and at least the hashes for signing.
  method ComputeDigestForVerifying(message: Slice, default: Hash, supported: Supported, opts: seq<Opt>,
                                   h: HashFunctions)
    returns (r: Computed)
    ensures var a := Or(LastSignerOpts(opts), HashOpts(default)).hash;
            var given := Or(Or(LastDigest(opts), None), []);
            var allowed := supported.None? || a in supported.value;
            && (!allowed ==> r == Computed(None, NO_HASH, Some(UnsupportedHash)))
            && (allowed && given == [] && message.None? ==> r == Computed(None, a, Some(NilMessage)))
            && (allowed && given == [] && message.Some? ==>
                  r == Computed(Some(if a == NO_HASH then message.value else h.sum(a, message.value)), a, None))
            && (allowed && given != [] && (a == NO_HASH || |given| == h.size(a)) ==>
                r == Computed(Some(given), a, None))
            && (allowed && given != [] && a != NO_HASH && |given| != h.size(a) ==>
                  r == Computed(Some(given), a, Some(UnexpectedLength)))
    ensures r == ComputeDigest(message, default, supported, opts, h)
    ensures forall signing: Supported | Contains(supported, signing) ::
              var s := ComputeDigest(message, default, signing, opts, h);
              && (s.err.None? <==> r.err.None? && IsSupportedAlg(r.hashedWith, signing))
              && (s.err.None? ==> s == r)
  {
    r := ComputeDigestForSigning(message, default, supported, opts, h);
    forall signing: Supported | Contains(supported, signing)
      ensures var s := ComputeDigest(message, default, signing, opts, h);
              && (s.err.None? <==> r.err.None? && IsSupportedAlg(r.hashedWith, signing))
              && (s.err.None? ==> s == r)
    {
      SigningIsVerifying(message, default, signing, supported, opts, h);
    }
  }

  // For ECDSA the two lists differ in SHA-1 alone.
  lemma EcdsaLists(message: Slice, default: Hash, opts: seq<Opt>, h: HashFunctions)
    ensures var s := ComputeDigest(message, default, ECDSA_HASHES, opts, h);
            var v := ComputeDigest(message, default, ECDSA_VERIFY_HASHES, opts, h);
            s != v <==> Or(LastSignerOpts(opts), HashOpts(default)).hash == SHA1
  {
    FoldIsLast(opts, Start(default));
  }
}
