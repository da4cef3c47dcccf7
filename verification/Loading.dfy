/** The default loaders: pkg/signature/algorithm_registry.go picks an algorithm for a key and its options,
    util.go filters the options, and signer.go, verifier.go and signerverifier.go load with what is left. */
module Loading {
  import opened Wrappers
  import opened Options
  import Digest

  type PSSOptions = nat

  datatype LoadOpt =
    | WithHash(hash: Hash)
    | WithED25519ph
    | WithRSAPSS(pss: Option<PSSOptions>)

  datatype Curve = P256 | P384 | P521 | OtherCurve

  // A nil pointer or slice still has the type of its key.
  datatype PublicKey =
    | RsaKey(bits: nat)
    | EcdsaKey(curve: Curve)
    | Ed25519Key
    | NilRsa
    | NilEcdsa
    | NilEd25519
    | OtherKey

  // The three private keys the loaders know, with their public half; an Ed25519 key that is not nil and has
  // not 64 bytes; any other crypto.Signer; and what signs nothing.
  datatype PrivateKey =
    | NativeKey(pub: PublicKey)
    | BadEd25519(size: nat)
    | OtherSigner(pub: PublicKey)
    | NotASigner

  datatype LoadError =
    | UnsupportedKey
    | InvalidKey
    | InvalidSize
    | InvalidHash
    | NotCryptoSigner
    | UnknownAlgorithm
    | Panic

  datatype Scheme =
    | Pkcs1v15
    | Pss(opts: PSSOptions)
    | Ecdsa
    | Ed25519
    | Ed25519ph

  datatype Loaded = Loaded(scheme: Scheme, hash: Hash)

  // ----- algorithm_registry.go

  datatype PublicKeyDetails =
    | RsaPkcs1v15_2048 | RsaPkcs1v15_3072 | RsaPkcs1v15_4096
    | RsaPss_2048 | RsaPss_3072 | RsaPss_4096
    | EcdsaP256_SHA256 | EcdsaP384_SHA384 | EcdsaP384_SHA256 | EcdsaP521_SHA512 | EcdsaP521_SHA256
    | PureEd25519 | PrehashedEd25519

  // What a registered algorithm says of its keys: the RSA modulus or the curve.
  datatype KeyParameters = RsaBits(bits: nat) | OnCurve(curve: Curve) | NoParameters

  datatype AlgorithmDetails = AlgorithmDetails(known: PublicKeyDetails, hashType: Hash, key: KeyParameters)

  const SUPPORTED_ALGORITHMS: seq<AlgorithmDetails> := [
    AlgorithmDetails(RsaPkcs1v15_2048, SHA256, RsaBits(2048)),
    AlgorithmDetails(RsaPkcs1v15_3072, SHA256, RsaBits(3072)),
    AlgorithmDetails(RsaPkcs1v15_4096, SHA256, RsaBits(4096)),
    AlgorithmDetails(RsaPss_2048, SHA256, RsaBits(2048)),
    AlgorithmDetails(RsaPss_3072, SHA256, RsaBits(3072)),
    AlgorithmDetails(RsaPss_4096, SHA256, RsaBits(4096)),
    AlgorithmDetails(EcdsaP256_SHA256, SHA256, OnCurve(P256)),
    AlgorithmDetails(EcdsaP384_SHA384, SHA384, OnCurve(P384)),
    AlgorithmDetails(EcdsaP384_SHA256, SHA256, OnCurve(P384)),
    AlgorithmDetails(EcdsaP521_SHA512, SHA512, OnCurve(P521)),
    AlgorithmDetails(EcdsaP521_SHA256, SHA256, OnCurve(P521)),
    AlgorithmDetails(PureEd25519, NO_HASH, NoParameters),
    AlgorithmDetails(PrehashedEd25519, SHA512, NoParameters)
  ]

  // The variables the loops over load options update.
  datatype LoadVars = LoadVars(pss: Option<PSSOptions>, ed25519ph: bool, hash: Hash)

  const INITIAL := LoadVars(None, false, SHA256)

  function ApplyLoad(o: LoadOpt, v: LoadVars): LoadVars {
    match o
    case WithHash(h) => v.(hash := h)
    case WithED25519ph => v.(ed25519ph := true)
    case WithRSAPSS(p) => v.(pss := p)
  }

  function FoldLoad(opts: seq<LoadOpt>, v: LoadVars): LoadVars {
    if opts == [] then v else FoldLoad(opts[1..], ApplyLoad(opts[0], v))
  }

  lemma {:induction false} FoldLoadSnoc(opts: seq<LoadOpt>, i: nat, v: LoadVars)
    requires i < |opts|
    ensures FoldLoad(opts[..i + 1], v) == ApplyLoad(opts[i], FoldLoad(opts[..i], v))
  {
    if i == 0 {
      assert opts[..1][1..] == [];
    } else {
      FoldLoadSnoc(opts[1..], i - 1, ApplyLoad(opts[0], v));
      assert opts[..i + 1][1..] == opts[1..][..i];
      assert opts[..i][1..] == opts[1..][..i - 1];
    }
  }

  function DefaultDetails(key: PublicKey, v: LoadVars): Result<PublicKeyDetails, LoadError> {
    match key
    case RsaKey(bits) =>
      if bits == 2048 then Ok(if v.pss.Some? then RsaPss_2048 else RsaPkcs1v15_2048)
      else if bits == 3072 then Ok(if v.pss.Some? then RsaPss_3072 else RsaPkcs1v15_3072)
      else if bits == 4096 then Ok(if v.pss.Some? then RsaPss_4096 else RsaPkcs1v15_4096)
      else Err(UnsupportedKey)
    case EcdsaKey(P256) => Ok(EcdsaP256_SHA256)
    case EcdsaKey(P384) => Ok(EcdsaP384_SHA384)
    case EcdsaKey(P521) => Ok(EcdsaP521_SHA512)
    case EcdsaKey(OtherCurve) => Err(UnsupportedKey)
    case Ed25519Key => Ok(if v.ed25519ph then PrehashedEd25519 else PureEd25519)
    case NilEd25519 => Ok(if v.ed25519ph then PrehashedEd25519 else PureEd25519)
    case NilRsa => Err(Panic)
    case NilEcdsa => Err(Panic)
    case OtherKey => Err(UnsupportedKey)
  }

  method GetDefaultPublicKeyDetails(key: PublicKey, opts: seq<LoadOpt>) returns (r: Result<PublicKeyDetails, LoadError>)
    ensures r == DefaultDetails(key, FoldLoad(opts, INITIAL))
  {
    var rsaPSSOptions: Option<PSSOptions>, useED25519ph := None, false;
    for i := 0 to |opts|
      invariant FoldLoad(opts[..i], INITIAL).pss == rsaPSSOptions
      invariant FoldLoad(opts[..i], INITIAL).ed25519ph == useED25519ph
    {
      FoldLoadSnoc(opts, i, INITIAL);
      useED25519ph := useED25519ph || opts[i].WithED25519ph?;
      rsaPSSOptions := if opts[i].WithRSAPSS? then opts[i].pss else rsaPSSOptions;
    }
    assert opts[..|opts|] == opts;
    r := DefaultDetails(key, LoadVars(rsaPSSOptions, useED25519ph, SHA256));
  }

  // The entry of an algorithm.
  function Registered(known: PublicKeyDetails): AlgorithmDetails {
    match known
    case RsaPkcs1v15_2048 => AlgorithmDetails(known, SHA256, RsaBits(2048))
    case RsaPkcs1v15_3072 => AlgorithmDetails(known, SHA256, RsaBits(3072))
    case RsaPkcs1v15_4096 => AlgorithmDetails(known, SHA256, RsaBits(4096))
    case RsaPss_2048 => AlgorithmDetails(known, SHA256, RsaBits(2048))
    case RsaPss_3072 => AlgorithmDetails(known, SHA256, RsaBits(3072))
    case RsaPss_4096 => AlgorithmDetails(known, SHA256, RsaBits(4096))
    case EcdsaP256_SHA256 => AlgorithmDetails(known, SHA256, OnCurve(P256))
    case EcdsaP384_SHA384 => AlgorithmDetails(known, SHA384, OnCurve(P384))
    case EcdsaP384_SHA256 => AlgorithmDetails(known, SHA256, OnCurve(P384))
    case EcdsaP521_SHA512 => AlgorithmDetails(known, SHA512, OnCurve(P521))
    case EcdsaP521_SHA256 => AlgorithmDetails(known, SHA256, OnCurve(P521))
    case PureEd25519 => AlgorithmDetails(known, NO_HASH, NoParameters)
    case PrehashedEd25519 => AlgorithmDetails(known, SHA512, NoParameters)
  }

  // Every algorithm is registered, and the first entry found is its own.
  method GetAlgorithmDetails(known: PublicKeyDetails) returns (r: Result<AlgorithmDetails, LoadError>)
    ensures r == Ok(Registered(known))
    ensures r.Ok? && r.value in SUPPORTED_ALGORITHMS && r.value.known == known
  {
    RegistryIsComplete(known);
    for i := 0 to |SUPPORTED_ALGORITHMS|
      invariant forall j :: 0 <= j < i ==> SUPPORTED_ALGORITHMS[j].known != known
    {
      if SUPPORTED_ALGORITHMS[i].known == known {
        return Ok(SUPPORTED_ALGORITHMS[i]);
      }
    }
    return Err(UnknownAlgorithm);
  }

  lemma RegistryIsComplete(known: PublicKeyDetails)
    ensures Registered(known) in SUPPORTED_ALGORITHMS
    ensures forall i :: 0 <= i < |SUPPORTED_ALGORITHMS| && SUPPORTED_ALGORITHMS[i].known == known ==>
              SUPPORTED_ALGORITHMS[i] == Registered(known)
  {
    var i := match known
      case RsaPkcs1v15_2048 => 0 case RsaPkcs1v15_3072 => 1 case RsaPkcs1v15_4096 => 2
      case RsaPss_2048 => 3 case RsaPss_3072 => 4 case RsaPss_4096 => 5
      case EcdsaP256_SHA256 => 6 case EcdsaP384_SHA384 => 7 case EcdsaP384_SHA256 => 8
      case EcdsaP521_SHA512 => 9 case EcdsaP521_SHA256 => 10
      case PureEd25519 => 11 case PrehashedEd25519 => 12;
    assert SUPPORTED_ALGORITHMS[i] == Registered(known);
  }

  function DefaultAlgorithm(key: PublicKey, opts: seq<LoadOpt>): Result<AlgorithmDetails, LoadError> {
    match DefaultDetails(key, FoldLoad(opts, INITIAL))
    case Err(e) => Err(e)
    case Ok(known) => Ok(Registered(known))
  }

  method GetDefaultAlgorithmDetails(key: PublicKey, opts: seq<LoadOpt>) returns (r: Result<AlgorithmDetails, LoadError>)
    ensures r == DefaultAlgorithm(key, opts)
  {
    var known := GetDefaultPublicKeyDetails(key, opts);
    if known.Err? {
      return Err(known.error);
    }
    r := GetAlgorithmDetails(known.value);
  }

  // ----- util.go

  predicate Kept(o: LoadOpt) {
    o.WithED25519ph? || (o.WithRSAPSS? && o.pss.Some?)
  }

  function KeepAll(opts: seq<LoadOpt>): seq<LoadOpt> {
    if opts == [] then [] else (if Kept(opts[0]) then [opts[0]] else []) + KeepAll(opts[1..])
  }

  function Filtered(details: AlgorithmDetails, opts: seq<LoadOpt>): seq<LoadOpt> {
    [WithHash(details.hashType)] + KeepAll(opts)
  }

  method GetOptsFromAlgorithmDetails(details: AlgorithmDetails, opts: seq<LoadOpt>) returns (res: seq<LoadOpt>)
    ensures res == Filtered(details, opts)
  {
    res := [WithHash(details.hashType)];
    for i := 0 to |opts|
      invariant res + KeepAll(opts[i..]) == Filtered(details, opts)
    {
      var vars := ApplyLoad(opts[i], INITIAL);
      assert opts[i..][1..] == opts[i + 1..];
      if vars.ed25519ph || vars.pss.Some? {
        res := res + [opts[i]];
      }
    }
  }

  // ----- signer.go, verifier.go, signerverifier.go

  const RSA_HASHES: seq<Hash> := [SHA256, SHA384, SHA512]

  // The constructors behind the type switch, which check for nil first; Ed25519 keys bring their own hash.
  function Choose(key: PublicKey, v: LoadVars): Result<Loaded, LoadError> {
    match key
    case RsaKey(_) =>
      if v.hash !in RSA_HASHES then Err(InvalidHash)
      else Ok(Loaded(if v.pss.Some? then Pss(v.pss.value) else Pkcs1v15, v.hash))
    case EcdsaKey(_) =>
      if !Digest.IsSupportedAlg(v.hash, Digest.ECDSA_HASHES) then Err(InvalidHash) else Ok(Loaded(Ecdsa, v.hash))
    case Ed25519Key => Ok(if v.ed25519ph then Loaded(Ed25519ph, SHA512) else Loaded(Ed25519, NO_HASH))
    case OtherKey => Err(UnsupportedKey)
    case _ => Err(InvalidKey)
  }

  // A signer only looks at the size of an Ed25519 key when it does not pre-hash.
  function ChooseSigner(key: PrivateKey, v: LoadVars): Result<Loaded, LoadError> {
    match key
    case NativeKey(pub) => Choose(pub, v)
    case BadEd25519(_) => if v.ed25519ph then Ok(Loaded(Ed25519ph, SHA512)) else Err(InvalidSize)
    case _ => Err(UnsupportedKey)
  }

  // Taking the public half copies the last 32 bytes of an Ed25519 key and dereferences the others.
  function Public(key: PrivateKey): Result<PublicKey, LoadError> {
    match key
    case NativeKey(pub) => if pub.NilRsa? || pub.NilEcdsa? || pub.NilEd25519? then Err(Panic) else Ok(pub)
    case BadEd25519(size) => if size < 32 then Err(Panic) else Ok(Ed25519Key)
    case OtherSigner(pub) => Ok(pub)
    case NotASigner => Err(NotCryptoSigner)
  }

  function LoadPrivate(key: PrivateKey, opts: seq<LoadOpt>): Result<Loaded, LoadError> {
    ChooseSigner(key, FoldLoad(opts, INITIAL))
  }

  // What both halves of a signer-verifier use.
  function LoadBoth(key: PrivateKey, opts: seq<LoadOpt>): Result<(Loaded, Loaded), LoadError> {
    match LoadPrivate(key, opts)
    case Err(e) => Err(e)
    case Ok(l) => if Public(key).Err? then Err(Public(key).error) else Ok((l, l))
  }

  // The loop LoadSignerWithOpts, LoadVerifierWithOpts and LoadSignerVerifierWithOpts share word for word.
  method FoldLoadOptions(opts: seq<LoadOpt>) returns (v: LoadVars)
    ensures v == FoldLoad(opts, INITIAL)
  {
    var rsaPSSOptions: Option<PSSOptions>, useED25519ph, hashFunc: Hash := None, false, SHA256;
    for i := 0 to |opts|
      invariant FoldLoad(opts[..i], INITIAL) == LoadVars(rsaPSSOptions, useED25519ph, hashFunc)
    {
      FoldLoadSnoc(opts, i, INITIAL);
      useED25519ph := useED25519ph || opts[i].WithED25519ph?;
      hashFunc := if opts[i].WithHash? then opts[i].hash else hashFunc;
      rsaPSSOptions := if opts[i].WithRSAPSS? then opts[i].pss else rsaPSSOptions;
    }
    assert opts[..|opts|] == opts;
    v := LoadVars(rsaPSSOptions, useED25519ph, hashFunc);
  }

  method LoadSignerWithOpts(key: PrivateKey, opts: seq<LoadOpt>) returns (r: Result<Loaded, LoadError>)
    ensures r == LoadPrivate(key, opts)
    ensures key.BadEd25519? ==>
              r == if WithED25519ph in opts then Ok(Loaded(Ed25519ph, SHA512)) else Err(InvalidSize)
    ensures key in {NativeKey(NilRsa), NativeKey(NilEcdsa), NativeKey(NilEd25519)} ==> r == Err(InvalidKey)
    ensures key.OtherSigner? || key.NotASigner? ==> r == Err(UnsupportedKey)
  {
    FoldPh(opts, INITIAL);
    var v := FoldLoadOptions(opts);
    r := ChooseSigner(key, v);
  }

  method LoadVerifierWithOpts(key: PublicKey, opts: seq<LoadOpt>) returns (r: Result<Loaded, LoadError>)
    ensures r == Choose(key, FoldLoad(opts, INITIAL))
  {
    var v := FoldLoadOptions(opts);
    r := Choose(key, v);
  }

  // A signer, then a verifier for the public half, both of which must load; they always agree.
  method LoadSignerVerifierWithOpts(key: PrivateKey, opts: seq<LoadOpt>)
    returns (r: Result<(Loaded, Loaded), LoadError>)
    ensures r == LoadBoth(key, opts)
    ensures r.Ok? ==> r.value.0 == r.value.1 && LoadPrivate(key, opts) == Ok(r.value.0)
    ensures key.BadEd25519? ==>
              r == if WithED25519ph !in opts then Err(InvalidSize)
                   else if key.size < 32 then Err(Panic)
                   else Ok((Loaded(Ed25519ph, SHA512), Loaded(Ed25519ph, SHA512)))
    ensures key in {NativeKey(NilRsa), NativeKey(NilEcdsa), NativeKey(NilEd25519)} ==> r == Err(InvalidKey)
    ensures key.OtherSigner? || key.NotASigner? ==> r == Err(UnsupportedKey)
  {
    FoldPh(opts, INITIAL);
    var v := FoldLoadOptions(opts);
    var signer := ChooseSigner(key, v);
    if signer.Err? {
      return Err(signer.error);
    }
    var pub := Public(key);
    if pub.Err? {
      return Err(pub.error);
    }
    // The verifier's constructor makes no check that the signer's has not passed.
    var verifier := Choose(pub.value, v);
    assert verifier.Ok?;
    return Ok((signer.value, verifier.value));
  }

  function DefaultVerifier(key: PublicKey, opts: seq<LoadOpt>): Result<Loaded, LoadError> {
    match DefaultAlgorithm(key, opts)
    case Err(e) => Err(e)
    case Ok(details) => Choose(key, FoldLoad(Filtered(details, opts), INITIAL))
  }

  method LoadDefaultVerifier(key: PublicKey, opts: seq<LoadOpt>) returns (r: Result<Loaded, LoadError>)
    ensures r == DefaultVerifier(key, opts)
  {
    var details := GetDefaultAlgorithmDetails(key, opts);
    if details.Err? {
      return Err(details.error);
    }
    var filteredOpts := GetOptsFromAlgorithmDetails(details.value, opts);
    r := LoadVerifierWithOpts(key, filteredOpts);
  }

  // The part LoadDefaultSigner and LoadDefaultSignerVerifier share: the filtered options for a private key.
  method DefaultOptions(key: PrivateKey, opts: seq<LoadOpt>) returns (r: Result<seq<LoadOpt>, LoadError>)
    ensures r == FilteredFor(key, opts)
  {
    var pub := Public(key);
    if pub.Err? {
      return Err(pub.error);
    }
    var details := GetDefaultAlgorithmDetails(pub.value, opts);
    if details.Err? {
      return Err(details.error);
    }
    var filteredOpts := GetOptsFromAlgorithmDetails(details.value, opts);
    return Ok(filteredOpts);
  }

  function FilteredFor(key: PrivateKey, opts: seq<LoadOpt>): Result<seq<LoadOpt>, LoadError> {
    match Public(key)
    case Err(e) => Err(e)
    case Ok(pub) =>
      match DefaultAlgorithm(pub, opts)
      case Err(e) => Err(e)
      case Ok(details) => Ok(Filtered(details, opts))
  }

  // On a well-formed key of the three known kinds, the default signer uses what the default verifier of its
  // public half uses. Any other signer is refused, though only after its public key was looked at.
  method LoadDefaultSigner(key: PrivateKey, opts: seq<LoadOpt>) returns (r: Result<Loaded, LoadError>)
    ensures key.NativeKey? && Public(key).Ok? ==> r == DefaultVerifier(key.pub, opts)
    ensures key in {NativeKey(NilRsa), NativeKey(NilEcdsa), NativeKey(NilEd25519)} ==> r == Err(Panic)
    ensures key.NativeKey? && key !in {NativeKey(NilRsa), NativeKey(NilEcdsa), NativeKey(NilEd25519)} ==>
              Public(key) == Ok(key.pub)
    ensures key.BadEd25519? ==>
              r == if key.size < 32 then Err(Panic)
                   else if WithED25519ph !in opts then Err(InvalidSize)
                   else Ok(Loaded(Ed25519ph, SHA512))
    ensures FilteredFor(key, opts).Ok? ==> r == LoadPrivate(key, FilteredFor(key, opts).value)
    ensures FilteredFor(key, opts).Err? ==> r == Err(FilteredFor(key, opts).error)
    ensures key.OtherSigner? ==> r.Err?
    ensures key.NotASigner? ==> r == Err(NotCryptoSigner)
  {
    if key.BadEd25519? && key.size >= 32 {
      FoldPh(opts, INITIAL);
      FoldFiltered(DefaultAlgorithm(Ed25519Key, opts).value, opts);
      FoldPh(Filtered(DefaultAlgorithm(Ed25519Key, opts).value, opts), INITIAL);
    }
    var filteredOpts := DefaultOptions(key, opts);
    if filteredOpts.Err? {
      return Err(filteredOpts.error);
    }
    r := LoadSignerWithOpts(key, filteredOpts.value);
  }

  method LoadDefaultSignerVerifier(key: PrivateKey, opts: seq<LoadOpt>) returns (r: Result<(Loaded, Loaded), LoadError>)
    ensures key.NativeKey? && Public(key).Ok? && DefaultVerifier(key.pub, opts).Ok? ==>
              r == Ok((DefaultVerifier(key.pub, opts).value, DefaultVerifier(key.pub, opts).value))
    ensures key.NativeKey? && Public(key).Ok? && DefaultVerifier(key.pub, opts).Err? ==>
              r == Err(DefaultVerifier(key.pub, opts).error)
    ensures key in {NativeKey(NilRsa), NativeKey(NilEcdsa), NativeKey(NilEd25519)} ==> r == Err(Panic)
    ensures key.NativeKey? && key !in {NativeKey(NilRsa), NativeKey(NilEcdsa), NativeKey(NilEd25519)} ==>
              Public(key) == Ok(key.pub)
    ensures key.BadEd25519? ==>
              r == if key.size < 32 then Err(Panic)
                   else if WithED25519ph !in opts then Err(InvalidSize)
                   else Ok((Loaded(Ed25519ph, SHA512), Loaded(Ed25519ph, SHA512)))
    ensures FilteredFor(key, opts).Ok? ==> r == LoadBoth(key, FilteredFor(key, opts).value)
    ensures FilteredFor(key, opts).Err? ==> r == Err(FilteredFor(key, opts).error)
    ensures key.OtherSigner? ==> r.Err?
    ensures key.NotASigner? ==> r == Err(NotCryptoSigner)
  {
    if key.BadEd25519? && key.size >= 32 {
      FoldPh(opts, INITIAL);
      FoldFiltered(DefaultAlgorithm(Ed25519Key, opts).value, opts);
      FoldPh(Filtered(DefaultAlgorithm(Ed25519Key, opts).value, opts), INITIAL);
    }
    var filteredOpts := DefaultOptions(key, opts);
    if filteredOpts.Err? {
      return Err(filteredOpts.error);
    }
    r := LoadSignerVerifierWithOpts(key, filteredOpts.value);
  }

  // ----- the filter keeps the meaning of the options

  // Whether the loaded scheme and hash are the registered algorithm's.
  predicate Implements(l: Loaded, details: AlgorithmDetails) {
    && l.hash == details.hashType
    && (match details.known
        case RsaPkcs1v15_2048 => l.scheme == Pkcs1v15
        case RsaPkcs1v15_3072 => l.scheme == Pkcs1v15
        case RsaPkcs1v15_4096 => l.scheme == Pkcs1v15
        case RsaPss_2048 => l.scheme.Pss?
        case RsaPss_3072 => l.scheme.Pss?
        case RsaPss_4096 => l.scheme.Pss?
        case PureEd25519 => l.scheme == Ed25519
        case PrehashedEd25519 => l.scheme == Ed25519ph
        case _ => l.scheme == Ecdsa)
  }

  predicate LastPss(opts: seq<LoadOpt>, j: int) {
    && 0 <= j < |opts| && opts[j].WithRSAPSS?
    && forall k :: j < k < |opts| ==> !opts[k].WithRSAPSS?
  }

  predicate RealPss(opts: seq<LoadOpt>, i: int) {
    0 <= i < |opts| && opts[i].WithRSAPSS? && opts[i].pss.Some?
  }

  // The last WithRSAPSS is nil although an earlier one is not.
  ghost predicate PssWithdrawn(opts: seq<LoadOpt>) {
    exists i, j :: RealPss(opts, i) && LastPss(opts, j) && opts[j].pss.None?
  }

  // The fold of the filtered list: the same pre-hash choice, and the last PSS options that are not nil.
  function LastRealPss(opts: seq<LoadOpt>): Option<PSSOptions> {
    if opts == [] then None
    else if LastRealPss(opts[1..]).Some? then LastRealPss(opts[1..])
    else if opts[0].WithRSAPSS? then opts[0].pss
    else None
  }

  lemma {:induction false} FoldKept(opts: seq<LoadOpt>, v: LoadVars, w: LoadVars)
    requires v.ed25519ph == w.ed25519ph
    ensures FoldLoad(KeepAll(opts), v) ==
            LoadVars(if LastRealPss(opts).Some? then LastRealPss(opts) else v.pss, FoldLoad(opts, w).ed25519ph, v.hash)
  {
    if opts == [] {
    } else {
      var w' := ApplyLoad(opts[0], w);
      if Kept(opts[0]) {
        assert KeepAll(opts)[1..] == KeepAll(opts[1..]);
        FoldKept(opts[1..], ApplyLoad(opts[0], v), w');
      } else {
        assert KeepAll(opts) == KeepAll(opts[1..]);
        FoldKept(opts[1..], v, w');
      }
    }
  }

  lemma {:induction false} RealPssIff(opts: seq<LoadOpt>)
    ensures LastRealPss(opts).Some? <==> exists i :: RealPss(opts, i)
  {
    if opts == [] {
    } else {
      RealPssIff(opts[1..]);
      if i :| RealPss(opts, i) && i > 0 {
        assert RealPss(opts[1..], i - 1);
      }
      if i :| RealPss(opts[1..], i) {
        assert RealPss(opts, i + 1);
      }
      assert opts[0].WithRSAPSS? && opts[0].pss.Some? ==> RealPss(opts, 0);
    }
  }

  // The fold ends with the last PSS options, nil or not.
  lemma {:induction false} FoldPss(opts: seq<LoadOpt>, v: LoadVars, j: nat)
    requires LastPss(opts, j)
    ensures FoldLoad(opts, v).pss == opts[j].pss
    decreases |opts|
  {
    if j == 0 {
      FoldNoPss(opts[1..], ApplyLoad(opts[0], v));
    } else {
      assert LastPss(opts[1..], j - 1);
      FoldPss(opts[1..], ApplyLoad(opts[0], v), j - 1);
    }
  }

  lemma {:induction false} FoldNoPss(opts: seq<LoadOpt>, v: LoadVars)
    requires forall k :: 0 <= k < |opts| ==> !opts[k].WithRSAPSS?
    ensures FoldLoad(opts, v).pss == v.pss
    decreases |opts|
  {
    if opts == [] {
    } else {
      FoldNoPss(opts[1..], ApplyLoad(opts[0], v));
    }
  }

  lemma {:induction false} LastPssExists(opts: seq<LoadOpt>, i: nat) returns (j: nat)
    requires i < |opts| && opts[i].WithRSAPSS?
    ensures i <= j && LastPss(opts, j)
    decreases |opts| - i
  {
    if k :| i < k < |opts| && opts[k].WithRSAPSS? {
      j := LastPssExists(opts, k);
    } else {
      j := i;
    }
  }

  lemma PssWithdrawnIff(opts: seq<LoadOpt>)
    ensures PssWithdrawn(opts) <==> FoldLoad(opts, INITIAL).pss.None? && LastRealPss(opts).Some?
  {
    RealPssIff(opts);
    if i :| RealPss(opts, i) {
      var j := LastPssExists(opts, i);
      FoldPss(opts, INITIAL, j);
      forall k | LastPss(opts, k)
        ensures k == j
      {
      }
    }
  }

  lemma FoldFiltered(details: AlgorithmDetails, opts: seq<LoadOpt>)
    ensures FoldLoad(Filtered(details, opts), INITIAL) ==
            LoadVars(LastRealPss(opts), FoldLoad(opts, INITIAL).ed25519ph, details.hashType)
  {
    var v := INITIAL.(hash := details.hashType);
    assert Filtered(details, opts)[1..] == KeepAll(opts);
    FoldKept(opts, v, INITIAL);
  }

  lemma {:induction false} FoldPh(opts: seq<LoadOpt>, v: LoadVars)
    ensures FoldLoad(opts, v).ed25519ph <==> v.ed25519ph || WithED25519ph in opts
  {
    if opts == [] {
    } else {
      FoldPh(opts[1..], ApplyLoad(opts[0], v));
      assert opts == [opts[0]] + opts[1..];
    }
  }

  // For every option list, the registry's choice has the key's own curve or modulus; keys of another curve or
  // size are refused. What remains to the options is PSS for RSA and pre-hashing for Ed25519.
  lemma DefaultFitsKey(key: PublicKey, opts: seq<LoadOpt>)
    ensures var d := DefaultAlgorithm(key, opts);
            && (d.Ok? ==> d.value in SUPPORTED_ALGORITHMS)
            && (key.RsaKey? ==>
                  && (d.Ok? <==> key.bits == 2048 || key.bits == 3072 || key.bits == 4096)
                  && (d.Ok? ==> d.value.key == RsaBits(key.bits) && d.value.hashType == SHA256))
            && (key.EcdsaKey? ==>
                  && (d.Ok? <==> key.curve != OtherCurve)
                  && (d.Ok? ==> d.value.key == OnCurve(key.curve)))
            && (key.Ed25519Key? ==>
                d.Ok? && d.value.known == if WithED25519ph in opts then PrehashedEd25519 else PureEd25519)
            && (key.NilEd25519? ==>
                d.Ok? && d.value.known == if WithED25519ph in opts then PrehashedEd25519 else PureEd25519)
            && (key.NilRsa? || key.NilEcdsa? ==> d == Err(Panic))
            && (key.OtherKey? ==> d == Err(UnsupportedKey))
  {
    FoldPh(opts, INITIAL);
    if DefaultAlgorithm(key, opts).Ok? {
      RegistryIsComplete(DefaultAlgorithm(key, opts).value.known);
    }
  }

  // For every option list, what the default verifier of a key is.
  lemma DefaultVerifierIs(key: PublicKey, opts: seq<LoadOpt>)
    ensures key == EcdsaKey(P256) ==> DefaultVerifier(key, opts) == Ok(Loaded(Ecdsa, SHA256))
    ensures key == EcdsaKey(P384) ==> DefaultVerifier(key, opts) == Ok(Loaded(Ecdsa, SHA384))
    ensures key == EcdsaKey(P521) ==> DefaultVerifier(key, opts) == Ok(Loaded(Ecdsa, SHA512))
    ensures key == EcdsaKey(OtherCurve) ==> DefaultVerifier(key, opts) == Err(UnsupportedKey)
    ensures key == Ed25519Key ==>
              DefaultVerifier(key, opts) ==
              Ok(if WithED25519ph in opts then Loaded(Ed25519ph, SHA512) else Loaded(Ed25519, NO_HASH))
    ensures key == NilEd25519 ==> DefaultVerifier(key, opts) == Err(InvalidKey)
    ensures key.RsaKey? && key.bits !in [2048, 3072, 4096] ==> DefaultVerifier(key, opts) == Err(UnsupportedKey)
    ensures key.RsaKey? && key.bits in [2048, 3072, 4096] ==>
              && DefaultVerifier(key, opts).Ok? && DefaultVerifier(key, opts).value.hash == SHA256
              && (DefaultVerifier(key, opts).value.scheme == Pkcs1v15 <==>
                  forall i :: 0 <= i < |opts| ==> opts[i].WithRSAPSS? ==> opts[i].pss.None?)
              && (DefaultVerifier(key, opts).value.scheme != Pkcs1v15 ==> DefaultVerifier(key, opts).value.scheme.Pss?)
  {
    hide FoldLoad, Filtered, LastRealPss;
    FoldPh(opts, INITIAL);
    if DefaultAlgorithm(key, opts).Ok? {
      FoldFiltered(DefaultAlgorithm(key, opts).value, opts);
    }
    RealPssIff(opts);
    assert (exists i :: RealPss(opts, i)) <==>
           !(forall i :: 0 <= i < |opts| ==> opts[i].WithRSAPSS? ==> opts[i].pss.None?) by {
      if i :| RealPss(opts, i) {
        assert opts[i].WithRSAPSS? && opts[i].pss.Some?;
      }
      if i :| 0 <= i < |opts| && opts[i].WithRSAPSS? && opts[i].pss.Some? {
        assert RealPss(opts, i);
      }
    }
  }

  // The hashes the loaders themselves accept.
  lemma LoaderHashes(v: LoadVars, bits: nat, curve: Curve)
    ensures Choose(RsaKey(bits), v).Ok? <==> v.hash == SHA256 || v.hash == SHA384 || v.hash == SHA512
    ensures Choose(EcdsaKey(curve), v).Ok? <==>
            v.hash == SHA224 || v.hash == SHA256 || v.hash == SHA384 || v.hash == SHA512
  {
  }

  // A default loader fails exactly when no default algorithm is known or the key is a nil Ed25519 key, and
  // otherwise loads that very algorithm unless PSS options were given to an RSA key and then withdrawn by a nil.
  lemma DefaultLoaderIff(key: PublicKey, opts: seq<LoadOpt>)
    ensures DefaultVerifier(key, opts).Ok? <==> DefaultAlgorithm(key, opts).Ok? && !key.NilEd25519?
    ensures DefaultVerifier(key, opts).Ok? ==>
              (Implements(DefaultVerifier(key, opts).value, DefaultAlgorithm(key, opts).value) <==>
               !(key.RsaKey? && PssWithdrawn(opts)))
  {
    hide FoldLoad, Filtered, LastRealPss, PssWithdrawn;
    if DefaultAlgorithm(key, opts).Ok? {
      FoldFiltered(DefaultAlgorithm(key, opts).value, opts);
    }
    PssWithdrawnIff(opts);
    if FoldLoad(opts, INITIAL).pss.Some? {
      FoldSomeIsReal(opts);
    }
  }

  lemma FoldSomeIsReal(opts: seq<LoadOpt>)
    requires FoldLoad(opts, INITIAL).pss.Some?
    ensures LastRealPss(opts).Some?
  {
    RealPssIff(opts);
    FoldSomeIndex(opts, INITIAL);
  }

  lemma {:induction false} FoldSomeIndex(opts: seq<LoadOpt>, v: LoadVars)
    requires FoldLoad(opts, v).pss.Some?
    ensures v.pss.Some? || exists i :: RealPss(opts, i)
  {
    if opts == [] {
    } else {
      var v1 := ApplyLoad(opts[0], v);
      FoldSomeIndex(opts[1..], v1);
      if i :| RealPss(opts[1..], i) {
        assert RealPss(opts, i + 1);
      }
      assert v1.pss.Some? && v.pss.None? ==> RealPss(opts, 0);
    }
  }

  // Such a list: the registry says PKCS #1 v1.5, the loader uses PSS.
  lemma WithdrawnPssExample()
    ensures var opts := [WithRSAPSS(Some(0)), WithRSAPSS(None)];
            && DefaultAlgorithm(RsaKey(2048), opts) == Ok(AlgorithmDetails(RsaPkcs1v15_2048, SHA256, RsaBits(2048)))
            && DefaultVerifier(RsaKey(2048), opts) == Ok(Loaded(Pss(0), SHA256))
  {
    var opts := [WithRSAPSS(Some(0)), WithRSAPSS(None)];
    assert opts[1..] == [WithRSAPSS(None)];
    assert opts[1..][1..] == [];
    FoldFiltered(Registered(RsaPkcs1v15_2048), opts);
  }
}
