/** pkg/signature/kms/cliplugin/encoding/options.go: option lists packed into the structures of the
    plugin protocol and unpacked on the other side, with the JSON text between them. */
module PluginEncoding {
  import opened Wrappers
  import opened Options

  // A field that is a pointer is an Option.
  datatype RPCOptions = RPCOptions(
    ctxDeadline: Option<Time>,
    keyVersion: Option<string>,
    remoteVerification: Option<bool>)

  datatype MessageOptions = MessageOptions(digest: Option<Slice>, hashFunc: Option<Hash>)

  datatype SignOptions = SignOptions(rpc: RPCOptions, message: MessageOptions)

  // ----- packing

  function PackedRPC(v: View): RPCOptions {
    RPCOptions(v.ctx.deadline, Some(v.keyVersion), Some(v.remoteVerification))
  }

  function PackedMessage(v: View): MessageOptions {
    MessageOptions(Some(v.digest), if v.signerOpts.Some? then Some(v.signerOpts.value.hash) else None)
  }

  function Pack(opts: seq<Opt>): SignOptions {
    SignOptions(PackedRPC(Fold(opts, ZERO)), PackedMessage(Fold(opts, ZERO)))
  }

  method PackRPCOptions(opts: seq<Opt>) returns (r: RPCOptions)
    ensures r == Pack(opts).rpc
    ensures r == RPCOptions(
                   Or(LastContext(opts), BACKGROUND).deadline,
                   Some(Or(LastKeyVersion(opts), "")),
                   Some(Or(LastRemoteVerification(opts), false)))
  {
    var ctx, keyVersion, remoteVerification := BACKGROUND, "", false;
    for i := 0 to |opts|
      invariant Fold(opts[..i], ZERO).ctx == ctx
      invariant Fold(opts[..i], ZERO).keyVersion == keyVersion
      invariant Fold(opts[..i], ZERO).remoteVerification == remoteVerification
    {
      FoldSnoc(opts, i, ZERO);
      match opts[i] {
        case WithContext(c) => ctx := c;
        case WithKeyVersion(k) => keyVersion := k;
        case WithRemoteVerification(b) => remoteVerification := b;
        case _ =>
      }
    }
    assert opts[..|opts|] == opts;
    FoldIsLast(opts, ZERO);
    r := RPCOptions(ctx.deadline, Some(keyVersion), Some(remoteVerification));
  }

  method PackMessageOptions(opts: seq<Opt>) returns (r: MessageOptions)
    ensures r == Pack(opts).message
    ensures r == MessageOptions(
                   Some(Or(LastDigest(opts), None)),
                   if LastSignerOpts(opts).Some? then Some(LastSignerOpts(opts).value.hash) else None)
  {
    var digest: Slice, signerOpts: Option<SignerOpts> := None, None;
    for i := 0 to |opts|
      invariant Fold(opts[..i], ZERO).digest == digest
      invariant Fold(opts[..i], ZERO).signerOpts == signerOpts
    {
      FoldSnoc(opts, i, ZERO);
      match opts[i] {
        case WithDigest(d) => digest := d;
        case WithCryptoSignerOpts(o) => signerOpts := Some(Or(o, HashOpts(SHA256)));
        case _ =>
      }
    }
    assert opts[..|opts|] == opts;
    FoldIsLast(opts, ZERO);
    r := MessageOptions(Some(digest), if signerOpts.Some? then Some(signerOpts.value.hash) else None);
  }

  method PackSignOptions(opts: seq<Opt>) returns (r: SignOptions)
    ensures r == Pack(opts)
  {
    var rpc := PackRPCOptions(opts);
    var message := PackMessageOptions(opts);
    r := SignOptions(rpc, message);
  }

  // ----- unpacking

  // A fresh context that carries the deadline and nothing else.
  function DeadlineContext(d: Time): Context {
    Context(Some(d), 1)
  }

  function Present(opt: Option<Opt>): seq<Opt> {
    if opt.Some? then [opt.value] else []
  }

  function ContextOpt(o: RPCOptions): Option<Opt> {
    if o.ctxDeadline.Some? then Some(WithContext(DeadlineContext(o.ctxDeadline.value))) else None
  }

  function KeyVersionOpt(o: RPCOptions): Option<Opt> {
    if o.keyVersion.Some? then Some(WithKeyVersion(o.keyVersion.value)) else None
  }

  function RemoteVerificationOpt(o: RPCOptions): Option<Opt> {
    if o.remoteVerification.Some? then Some(WithRemoteVerification(o.remoteVerification.value)) else None
  }

  function DigestOpt(o: MessageOptions): Option<Opt> {
    if o.digest.Some? then Some(WithDigest(o.digest.value)) else None
  }

  function HashOpt(o: MessageOptions): Option<Opt> {
    if o.hashFunc.Some? then Some(WithCryptoSignerOpts(Some(HashOpts(o.hashFunc.value)))) else None
  }

  function UnpackRPC(o: RPCOptions): seq<Opt> {
    Present(ContextOpt(o)) + Present(KeyVersionOpt(o)) + Present(RemoteVerificationOpt(o))
  }

  function UnpackMessage(o: MessageOptions): seq<Opt> {
    Present(DigestOpt(o)) + Present(HashOpt(o))
  }

  function Unpack(o: SignOptions): seq<Opt> {
    UnpackRPC(o.rpc) + UnpackMessage(o.message)
  }

  // ----- the JSON text: a pointer to a nil slice is written as null and comes back as no pointer

  function OnWire(o: SignOptions): SignOptions {
    if o.message.digest == Some(None) then o.(message := o.message.(digest := None)) else o
  }

  // ----- what arrives

  lemma {:induction false} FoldAppend(xs: seq<Opt>, ys: seq<Opt>, v: View)
    ensures Fold(xs + ys, v) == Fold(ys, Fold(xs, v))
  {
    if xs == [] {
      assert xs + ys == ys;
    } else {
      FoldAppend(xs[1..], ys, Apply(xs[0], v));
      assert (xs + ys)[1..] == xs[1..] + ys;
    }
  }

  lemma FoldOne(o: Opt, v: View)
    ensures Fold([o], v) == Apply(o, v)
  {
    assert [o][1..] == [];
  }

  lemma FoldPresent(opts: seq<Opt>, o: Option<Opt>, v: View)
    ensures Fold(opts + Present(o), v) == if o.Some? then Apply(o.value, Fold(opts, v)) else Fold(opts, v)
  {
    FoldAppend(opts, Present(o), v);
    if o.Some? {
      FoldOne(o.value, Fold(opts, v));
    }
  }

  // Folding an unpacked structure: every field that is present overwrites its variable.
  lemma FoldUnpacked(o: SignOptions, v: View)
    ensures Fold(Unpack(o), v) == View(
              if o.rpc.ctxDeadline.Some? then DeadlineContext(o.rpc.ctxDeadline.value) else v.ctx,
              Or(o.rpc.keyVersion, v.keyVersion),
              Or(o.rpc.remoteVerification, v.remoteVerification),
              Or(o.message.digest, v.digest),
              if o.message.hashFunc.Some? then Some(HashOpts(o.message.hashFunc.value)) else v.signerOpts)
  {
    hide Fold, Present;
    var c, k, r := ContextOpt(o.rpc), KeyVersionOpt(o.rpc), RemoteVerificationOpt(o.rpc);
    var d, h := DigestOpt(o.message), HashOpt(o.message);
    var rpc := UnpackRPC(o.rpc);
    FoldNothing(v);
    FoldPresent([], c, v);
    assert [] + Present(c) == Present(c);
    FoldPresent(Present(c), k, v);
    FoldPresent(Present(c) + Present(k), r, v);
    FoldPresent(rpc, d, v);
    FoldPresent(rpc + Present(d), h, v);
    assert Unpack(o) == rpc + Present(d) + Present(h);
  }

  lemma FoldNothing(v: View)
    ensures Fold([], v) == v
  {
  }

  // What the other side of the wire ends up with, from whatever state it starts: key version and remote
  // verification always as last given or zero; deadline, digest and hash as given unless they are zero,
  // in which case the start state's stay.
  lemma NormalForm(opts: seq<Opt>, start: View)
    ensures var deadline, digest := Or(LastContext(opts), BACKGROUND).deadline, Or(LastDigest(opts), None);
            Fold(Unpack(OnWire(Pack(opts))), start) == View(
              if deadline.Some? then DeadlineContext(deadline.value) else start.ctx,
              Or(LastKeyVersion(opts), ""),
              Or(LastRemoteVerification(opts), false),
              if digest.Some? then digest else start.digest,
              if LastSignerOpts(opts).Some? then Some(HashOpts(LastSignerOpts(opts).value.hash)) else start.signerOpts)
  {
    FoldIsLast(opts, ZERO);
    FoldUnpacked(OnWire(Pack(opts)), start);
  }

  // Without the wire in between, a nil digest does overwrite the start state's.
  lemma WithoutWire(opts: seq<Opt>, start: View)
    ensures Fold(Unpack(Pack(opts)), start) ==
            Fold(Unpack(OnWire(Pack(opts))), start).(digest := Or(LastDigest(opts), None))
  {
    FoldIsLast(opts, ZERO);
    FoldUnpacked(OnWire(Pack(opts)), start);
    FoldUnpacked(Pack(opts), start);
  }

  // The values of a view that the protocol carries.
  datatype Carried = Carried(
    deadline: Option<Time>,
    keyVersion: string,
    remoteVerification: bool,
    digest: Slice,
    hash: Option<Hash>)

  function Carry(v: View): Carried {
    Carried(v.ctx.deadline, v.keyVersion, v.remoteVerification, v.digest,
            if v.signerOpts.Some? then Some(v.signerOpts.value.hash) else None)
  }

  predicate SameAcross(opts: seq<Opt>, start: View) {
    Carry(Fold(Unpack(OnWire(Pack(opts))), start)) == Carry(Fold(opts, start))
  }

  // What a list must say for a start state not to show: the key version and remote verification, unless
  // they start at zero, and no zero deadline or digest over one that is not.
  predicate SurvivesRPC(opts: seq<Opt>, start: View) {
    && (LastContext(opts).Some? && LastContext(opts).value.deadline.None? ==> start.ctx.deadline.None?)
    && (LastKeyVersion(opts).None? ==> start.keyVersion == "")
    && (LastRemoteVerification(opts).None? ==> !start.remoteVerification)
  }

  predicate Survives(opts: seq<Opt>, start: View) {
    SurvivesRPC(opts, start) && (LastDigest(opts) == Some(None) ==> start.digest.None?)
  }

  // For one list and one start state, exactly when the wire changes nothing.
  lemma SurvivesIff(opts: seq<Opt>, start: View)
    ensures SameAcross(opts, start) <==> Survives(opts, start)
  {
    NormalForm(opts, start);
    FoldIsLast(opts, start);
  }

  // Going over the wire means the same as not going, for all option lists, exactly from the start
  // states that leave the deadline, key version, remote verification and digest at zero.
  lemma SameAcrossIff(start: View)
    ensures (forall opts :: SameAcross(opts, start)) <==>
            start.ctx.deadline == None && start.keyVersion == "" && !start.remoteVerification && start.digest == None
  {
    if start.ctx.deadline == None && start.keyVersion == "" && !start.remoteVerification && start.digest == None {
      forall opts: seq<Opt>
        ensures SameAcross(opts, start)
      {
        NormalForm(opts, start);
        FoldIsLast(opts, start);
      }
    }
    if forall opts :: SameAcross(opts, start) {
      NonZeroStartsDiffer(start);
    }
  }

  lemma NonZeroStartsDiffer(start: View)
    requires forall opts :: SameAcross(opts, start)
    ensures start.ctx.deadline == None && start.keyVersion == "" && !start.remoteVerification && start.digest == None
  {
    hide Fold, Pack, Unpack, OnWire;
    var noDeadline, noDigest := [WithContext(BACKGROUND)], [WithDigest(None)];
    assert SameAcross([], start) && SameAcross(noDeadline, start) && SameAcross(noDigest, start);
    NormalForm([], start);
    NormalForm(noDeadline, start);
    NormalForm(noDigest, start);
    FoldIsLast([], start);
    FoldIsLast(noDeadline, start);
    FoldIsLast(noDigest, start);
    assert noDeadline[1..] == [] && noDigest[1..] == [];
    assert LastContext(noDeadline) == Some(BACKGROUND) && LastDigest(noDigest) == Some(None);
  }

  // Packing what was unpacked changes nothing, on the wire or off it.
  lemma PackIsStable(opts: seq<Opt>)
    ensures Pack(Unpack(Pack(opts))) == Pack(opts)
    ensures Pack(Unpack(OnWire(Pack(opts)))) == Pack(opts)
  {
    FoldUnpacked(Pack(opts), ZERO);
    FoldUnpacked(OnWire(Pack(opts)), ZERO);
  }
}
