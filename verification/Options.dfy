/** pkg/signature/options: each option overwrites one variable of the call it is passed to, and a list
    of options is applied in order. */
module Options {
  import opened Wrappers
  import opened Bytes

  // crypto.Hash, by its registered number; zero is no hash.
  type Hash = nat

  const NO_HASH: Hash := 0
  const SHA1: Hash := 3
  const SHA224: Hash := 4
  const SHA256: Hash := 5
  const SHA384: Hash := 6
  const SHA512: Hash := 7

  type Time = int

  // What tells contexts apart here: the deadline, and otherwise an identity.
  datatype Context = Context(deadline: Option<Time>, id: nat)

  const BACKGROUND := Context(None, 0)

  // A crypto.SignerOpts: its hash function and the concrete value behind the interface.
  datatype SignerOpts = SignerOpts(hash: Hash, value: nat)

  // crypto.Hash is itself a SignerOpts.
  function HashOpts(h: Hash): SignerOpts {
    SignerOpts(h, 0)
  }

  // A nil slice of bytes is None; an empty one is Some([]).
  type Slice = Option<bytes>

  datatype Opt =
    | WithContext(ctx: Context)
    | WithKeyVersion(keyVersion: string)
    | WithRemoteVerification(remoteVerification: bool)
    | WithDigest(digest: Slice)
    | WithCryptoSignerOpts(opts: Option<SignerOpts>)
    | WithRPCAuthOpts(token: string)
    | WithRand(source: nat)
    | ReturnKeyVersionUsed(pointer: nat)

  // The variables a key service call keeps for its options.
  datatype View = View(
    ctx: Context,
    keyVersion: string,
    remoteVerification: bool,
    digest: Slice,
    signerOpts: Option<SignerOpts>)

  const ZERO := View(BACKGROUND, "", false, None, None)

  function Apply(opt: Opt, v: View): View {
    match opt
    case WithContext(c) => v.(ctx := c)
    case WithKeyVersion(k) => v.(keyVersion := k)
    case WithRemoteVerification(b) => v.(remoteVerification := b)
    case WithDigest(d) => v.(digest := d)
    case WithCryptoSignerOpts(o) => v.(signerOpts := Some(Or(o, HashOpts(SHA256))))
    case _ => v
  }

  function Fold(opts: seq<Opt>, v: View): View {
    if opts == [] then v else Fold(opts[1..], Apply(opts[0], v))
  }

  // Applying a list to local variables one option at a time.
  lemma {:induction false} FoldSnoc(opts: seq<Opt>, i: nat, v: View)
    requires i < |opts|
    ensures Fold(opts[..i + 1], v) == Apply(opts[i], Fold(opts[..i], v))
  {
    if i == 0 {
      assert opts[..1][1..] == [];
    } else {
      FoldSnoc(opts[1..], i - 1, Apply(opts[0], v));
      assert opts[..i + 1][1..] == opts[1..][..i];
      assert opts[..i][1..] == opts[1..][..i - 1];
    }
  }

  // ----- the same, said by the last option of each sort

  function Last<T>(opts: seq<Opt>, given: Opt -> Option<T>): Option<T> {
    if opts == [] then None
    else if Last(opts[1..], given).Some? then Last(opts[1..], given)
    else given(opts[0])
  }

  function GivenContext(o: Opt): Option<Context> {
    if o.WithContext? then Some(o.ctx) else None
  }

  function GivenKeyVersion(o: Opt): Option<string> {
    if o.WithKeyVersion? then Some(o.keyVersion) else None
  }

  function GivenRemoteVerification(o: Opt): Option<bool> {
    if o.WithRemoteVerification? then Some(o.remoteVerification) else None
  }

  function GivenDigest(o: Opt): Option<Slice> {
    if o.WithDigest? then Some(o.digest) else None
  }

  function GivenSignerOpts(o: Opt): Option<SignerOpts> {
    if o.WithCryptoSignerOpts? then Some(Or(o.opts, HashOpts(SHA256))) else None
  }

  function LastContext(opts: seq<Opt>): Option<Context> {
    Last(opts, GivenContext)
  }

  function LastKeyVersion(opts: seq<Opt>): Option<string> {
    Last(opts, GivenKeyVersion)
  }

  function LastRemoteVerification(opts: seq<Opt>): Option<bool> {
    Last(opts, GivenRemoteVerification)
  }

  function LastDigest(opts: seq<Opt>): Option<Slice> {
    Last(opts, GivenDigest)
  }

  function LastSignerOpts(opts: seq<Opt>): Option<SignerOpts> {
    Last(opts, GivenSignerOpts)
  }

  // The fold is last-writer-wins, variable by variable.
  lemma {:induction false} FoldIsLast(opts: seq<Opt>, v: View)
    ensures Fold(opts, v) == View(
              Or(LastContext(opts), v.ctx),
              Or(LastKeyVersion(opts), v.keyVersion),
              Or(LastRemoteVerification(opts), v.remoteVerification),
              Or(LastDigest(opts), v.digest),
              if LastSignerOpts(opts).Some? then LastSignerOpts(opts) else v.signerOpts)
  {
    if opts == [] {
    } else {
      FoldIsLast(opts[1..], Apply(opts[0], v));
    }
  }
}
