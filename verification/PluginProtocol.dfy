/** pkg/signature/kms/cliplugin: a key service behind a command-line program. The client packs a method
    call into the program's arguments and standard input, the program dispatches it to the real
    implementation, and the client reads one JSON document back from standard output. */
module PluginProtocol {
  import opened Wrappers
  import opened Bytes
  import opened Options
  import opened PluginEncoding

  // ----- the implementation behind the plugin

  // The option values a method that signs nothing looks at.
  datatype RpcValues = RpcValues(deadline: Option<Time>, keyVersion: string, remoteVerification: bool)

  function RpcCarry(v: View): RpcValues {
    RpcValues(v.ctx.deadline, v.keyVersion, v.remoteVerification)
  }

  // A real SignerVerifier: the variables its methods start from, and what each method does with the
  // message and the folded option values. Errors are their text.
  datatype Impl<!K> = Impl(
    start: View,
    defaultAlgorithm: string,
    supportedAlgorithms: seq<string>,
    createKey: (Option<Time>, string) -> Result<K, string>,
    publicKey: RpcValues -> Result<K, string>,
    signMessage: (bytes, Carried) -> Result<bytes, string>,
    verifySignature: (bytes, bytes, Carried) -> Result<(), string>)

  datatype KeyCodec<!K> = KeyCodec(marshal: K -> bytes, unmarshal: bytes -> Option<K>)

  ghost predicate LawfulCodec<K(!new)>(codec: KeyCodec<K>) {
    forall k :: codec.unmarshal(codec.marshal(k)) == Some(k)
  }

  // ----- calls, made directly

  datatype Call =
    | DefaultAlgorithm
    | SupportedAlgorithms
    | CreateKey(deadline: Option<Time>, algorithm: string)
    | PublicKey(opts: seq<Opt>)
    | SignMessage(message: bytes, opts: seq<Opt>)
    | VerifySignature(sig: bytes, message: bytes, opts: seq<Opt>)

  datatype Value<K> =
    | AlgorithmName(name: string)
    | AlgorithmNames(names: seq<string>)
    | KeyValue(key: K)
    | SignatureValue(sig: bytes)
    | Verified

  function Direct<K>(call: Call, impl: Impl<K>): Result<Value<K>, string> {
    match call
    case DefaultAlgorithm => Ok(AlgorithmName(impl.defaultAlgorithm))
    case SupportedAlgorithms => Ok(AlgorithmNames(impl.supportedAlgorithms))
    case CreateKey(deadline, algorithm) => AsKey(impl.createKey(deadline, algorithm))
    case PublicKey(opts) => AsKey(impl.publicKey(RpcCarry(Fold(opts, impl.start))))
    case SignMessage(message, opts) =>
      (match impl.signMessage(message, Carry(Fold(opts, impl.start)))
       case Ok(sig) => Ok(SignatureValue(sig))
       case Err(text) => Err(text))
    case VerifySignature(sig, message, opts) =>
      (match impl.verifySignature(sig, message, Carry(Fold(opts, impl.start)))
       case Ok(_) => Ok(Verified)
       case Err(text) => Err(text))
  }

  function AsKey<K>(r: Result<K, string>): Result<Value<K>, string> {
    match r
    case Ok(k) => Ok(KeyValue(k))
    case Err(text) => Err(text)
  }

  // ----- common/interface.go: what crosses the wire; pointers are Options

  datatype CreateKeyArgs = CreateKeyArgs(ctxDeadline: Option<Time>, algorithm: string)

  datatype VerifySignatureArgs = VerifySignatureArgs(signature: bytes, verifyOptions: SignOptions)

  datatype MethodArgs = MethodArgs(
    methodName: string,
    createKey: Option<CreateKeyArgs>,
    publicKey: Option<RPCOptions>,
    signMessage: Option<SignOptions>,
    verifySignature: Option<VerifySignatureArgs>)

  datatype PluginResp = PluginResp(
    errorMessage: string,
    defaultAlgorithm: Option<string>,
    supportedAlgorithms: Option<seq<string>>,
    createKey: Option<bytes>,
    publicKey: Option<bytes>,
    signMessage: Option<bytes>,
    verifySignature: Option<()>)

  const NO_ARGS := MethodArgs("", None, None, None, None)
  const NO_RESP := PluginResp("", None, None, None, None, None, None)

  // The arguments after a trip through their JSON text.
  function ArgsOnWire(a: MethodArgs): MethodArgs {
    a.(signMessage := if a.signMessage.Some? then Some(OnWire(a.signMessage.value)) else None,
       verifySignature :=
         if a.verifySignature.Some?
         then Some(a.verifySignature.value.(verifyOptions := OnWire(a.verifySignature.value.verifyOptions)))
         else None)
  }

  // One command-line argument: plain text, or text that is the JSON of method arguments.
  datatype Arg = Word(text: string) | Json(args: MethodArgs)

  // ----- handler/dispatch.go and handler/methods.go

  function GetPluginArgs(osArgs: seq<Arg>): Result<MethodArgs, string> {
    if |osArgs| < 3 then Err("error parsing plugin args")
    else
      match osArgs[2]
      case Word(_) => Err("invalid JSON")
      case Json(args) => Ok(args)
  }

  function HandleKey<K>(r: Result<K, string>, codec: KeyCodec<K>): Result<bytes, string> {
    match r
    case Ok(k) => Ok(codec.marshal(k))
    case Err(text) => Err(text)
  }

  function HandleCreateKey<K>(a: CreateKeyArgs, impl: Impl<K>, codec: KeyCodec<K>): Result<bytes, string> {
    HandleKey(impl.createKey(a.ctxDeadline, a.algorithm), codec)
  }

  function HandlePublicKey<K>(o: RPCOptions, impl: Impl<K>, codec: KeyCodec<K>): Result<bytes, string> {
    HandleKey(impl.publicKey(RpcCarry(Fold(UnpackRPC(o), impl.start))), codec)
  }

  function HandleSignMessage<K>(stdin: bytes, o: SignOptions, impl: Impl<K>): Result<bytes, string> {
    impl.signMessage(stdin, Carry(Fold(Unpack(o), impl.start)))
  }

  function HandleVerifySignature<K>(stdin: bytes, a: VerifySignatureArgs, impl: Impl<K>): Result<(), string> {
    impl.verifySignature(a.signature, stdin, Carry(Fold(Unpack(a.verifyOptions), impl.start)))
  }

  function ErrorText<T>(r: Result<T, string>): string {
    if r.Err? then r.error else ""
  }

  function Present<T>(r: Result<T, string>): Option<T> {
    if r.Ok? then Some(r.value) else None
  }

  // The response written for some arguments; None is the crash on a missing arguments structure.
  function Respond<K>(stdin: bytes, a: MethodArgs, impl: Impl<K>, codec: KeyCodec<K>): Option<PluginResp> {
    if a.methodName == "defaultAlgorithm" then
      Some(NO_RESP.(defaultAlgorithm := Some(impl.defaultAlgorithm)))
    else if a.methodName == "supportedAlgorithms" then
      Some(NO_RESP.(supportedAlgorithms := Some(impl.supportedAlgorithms)))
    else if a.methodName == "createKey" then
      if a.createKey.None? then None
      else
        var r := HandleCreateKey(a.createKey.value, impl, codec);
        Some(NO_RESP.(createKey := Present(r), errorMessage := ErrorText(r)))
    else if a.methodName == "publicKey" then
      if a.publicKey.None? then None
      else
        var r := HandlePublicKey(a.publicKey.value, impl, codec);
        Some(NO_RESP.(publicKey := Present(r), errorMessage := ErrorText(r)))
    else if a.methodName == "signMessage" then
      if a.signMessage.None? then None
      else
        var r := HandleSignMessage(stdin, a.signMessage.value, impl);
        Some(NO_RESP.(signMessage := Present(r), errorMessage := ErrorText(r)))
    else if a.methodName == "verifySignature" then
      if a.verifySignature.None? then None
      else
        var r := HandleVerifySignature(stdin, a.verifySignature.value, impl);
        Some(NO_RESP.(verifySignature := Present(r), errorMessage := ErrorText(r)))
    else
      Some(NO_RESP.(errorMessage := "unsupported method: " + a.methodName))
  }

  // Standard output, as the JSON documents written to it.
  class Stdout {
    var docs: seq<PluginResp>

    constructor ()
      ensures docs == []
    {
      docs := [];
    }

    method WriteResponse(resp: PluginResp)
      modifies this
      ensures docs == old(docs) + [resp]
    {
      docs := docs + [resp];
    }
  }

  method Dispatch<K>(stdout: Stdout, stdin: bytes, args: MethodArgs, impl: Impl<K>, codec: KeyCodec<K>)
    returns (resp: Option<PluginResp>)
    modifies stdout
    ensures resp == Respond(stdin, args, impl, codec)
    ensures stdout.docs == if resp.Some? then old(stdout.docs) + [resp.value] else old(stdout.docs)
  {
    var r := NO_RESP;
    var errText: string := "";
    match args.methodName {
      case "defaultAlgorithm" => r := r.(defaultAlgorithm := Some(impl.defaultAlgorithm));
      case "supportedAlgorithms" => r := r.(supportedAlgorithms := Some(impl.supportedAlgorithms));
      case "createKey" =>
        if args.createKey.None? { return None; }
        var key := HandleCreateKey(args.createKey.value, impl, codec);
        r := r.(createKey := Present(key));
        errText := ErrorText(key);
      case "publicKey" =>
        if args.publicKey.None? { return None; }
        var key := HandlePublicKey(args.publicKey.value, impl, codec);
        r := r.(publicKey := Present(key));
        errText := ErrorText(key);
      case "signMessage" =>
        if args.signMessage.None? { return None; }
        var sig := HandleSignMessage(stdin, args.signMessage.value, impl);
        r := r.(signMessage := Present(sig));
        errText := ErrorText(sig);
      case "verifySignature" =>
        if args.verifySignature.None? { return None; }
        var verdict := HandleVerifySignature(stdin, args.verifySignature.value, impl);
        r := r.(verifySignature := Present(verdict));
        errText := ErrorText(verdict);
      case _ => errText := "unsupported method: " + args.methodName;
    }
    r := r.(errorMessage := errText);
    stdout.WriteResponse(r);
    return Some(r);
  }

  // The documents a plugin program leaves on standard output.
  function PluginOutput<K>(osArgs: seq<Arg>, stdin: bytes, impl: Impl<K>, codec: KeyCodec<K>): seq<PluginResp> {
    match GetPluginArgs(osArgs)
    case Err(text) => [NO_RESP.(errorMessage := text)]
    case Ok(args) =>
      var resp := Respond(stdin, args, impl, codec);
      if resp.Some? then [resp.value] else []
  }

  method RunPlugin<K>(osArgs: seq<Arg>, stdin: bytes, impl: Impl<K>, codec: KeyCodec<K>) returns (docs: seq<PluginResp>)
    ensures docs == PluginOutput(osArgs, stdin, impl, codec)
  {
    var stdout := new Stdout();
    var args := GetPluginArgs(osArgs);
    if args.Err? {
      stdout.WriteResponse(NO_RESP.(errorMessage := args.error));
    } else {
      var _ := Dispatch(stdout, stdin, args.value, impl, codec);
    }
    docs := stdout.docs;
  }

  // ----- signer.go

  // How the program ended: well, with an exit code (negative when a signal ended it), or not run at all.
  datatype Exit = Clean | ExitError(code: int) | NotRun

  datatype Process = Process(exit: Exit, stdout: seq<PluginResp>)

  // Exit codes of one and more are ignored: the response says what went wrong.
  predicate Heard(exit: Exit) {
    exit.Clean? || (exit.ExitError? && exit.code >= 1)
  }

  datatype ClientError =
    | ExecutingPlugin
    | ResponseParse
    | PluginReturned(text: string)
    | KeyParse

  datatype Outcome<K> =
    | Returned(value: Value<K>)
    | Failed(error: ClientError)
    | Exited(error: ClientError)
    | Panicked

  function ReadProcess(p: Process): (r: Result<PluginResp, ClientError>)
    ensures r == Err(ExecutingPlugin) <==> p.exit == NotRun || (p.exit.ExitError? && p.exit.code < 1)
    ensures r.Ok? <==> Heard(p.exit) && |p.stdout| == 1 && p.stdout[0].errorMessage == ""
  {
    if !Heard(p.exit) then Err(ExecutingPlugin)
    else if |p.stdout| != 1 then Err(ResponseParse)
    else if p.stdout[0].errorMessage != "" then Err(PluginReturned(p.stdout[0].errorMessage))
    else Ok(p.stdout[0])
  }

  function ClientArgs(call: Call): MethodArgs {
    match call
    case DefaultAlgorithm => NO_ARGS.(methodName := "defaultAlgorithm")
    case SupportedAlgorithms => NO_ARGS.(methodName := "supportedAlgorithms")
    case CreateKey(deadline, algorithm) =>
      NO_ARGS.(methodName := "createKey", createKey := Some(CreateKeyArgs(deadline, algorithm)))
    case PublicKey(opts) => NO_ARGS.(methodName := "publicKey", publicKey := Some(Pack(opts).rpc))
    case SignMessage(_, opts) => NO_ARGS.(methodName := "signMessage", signMessage := Some(Pack(opts)))
    case VerifySignature(sig, _, opts) =>
      NO_ARGS.(methodName := "verifySignature", verifySignature := Some(VerifySignatureArgs(sig, Pack(opts))))
  }

  function ClientStdin(call: Call): bytes {
    match call
    case SignMessage(message, _) => message
    case VerifySignature(_, message, _) => message
    case _ => []
  }

  function ReadKey<K>(pem: Option<bytes>, codec: KeyCodec<K>): Outcome<K> {
    if pem.None? then Panicked
    else
      match codec.unmarshal(pem.value)
      case None => Failed(KeyParse)
      case Some(k) => Returned(KeyValue(k))
  }

  // What the client method makes of the response; a missing response structure is dereferenced.
  function ReadResponse<K>(call: Call, resp: PluginResp, codec: KeyCodec<K>): Outcome<K> {
    match call
    case DefaultAlgorithm =>
      if resp.defaultAlgorithm.Some? then Returned(AlgorithmName(resp.defaultAlgorithm.value)) else Panicked
    case SupportedAlgorithms =>
      if resp.supportedAlgorithms.Some? then Returned(AlgorithmNames(resp.supportedAlgorithms.value)) else Panicked
    case CreateKey(_, _) => ReadKey(resp.createKey, codec)
    case PublicKey(_) => ReadKey(resp.publicKey, codec)
    case SignMessage(_, _) =>
      if resp.signMessage.Some? then Returned(SignatureValue(resp.signMessage.value)) else Panicked
    case VerifySignature(_, _, _) => Returned(Verified)
  }

  // The two methods without an error result end the client's own process instead.
  predicate NeverFails(call: Call) {
    call.DefaultAlgorithm? || call.SupportedAlgorithms?
  }

  // A client call whose transport is faithful: the program receives exactly the arguments and the
  // message, and its output arrives whole.
  function Remote<K>(call: Call, executable: string, exit: Exit, impl: Impl<K>, codec: KeyCodec<K>): Outcome<K> {
    var osArgs := [Word(executable), Word("v1"), Json(ArgsOnWire(ClientArgs(call)))];
    match ReadProcess(Process(exit, PluginOutput(osArgs, ClientStdin(call), impl, codec)))
    case Err(e) => if NeverFails(call) then Exited(e) else Failed(e)
    case Ok(resp) => ReadResponse(call, resp, codec)
  }

  // ----- the remote call is a direct one with what arrives

  // The call the implementation ends up with: its options packed, on the wire, and unpacked.
  function OverWire(call: Call): Call {
    match call
    case PublicKey(opts) => PublicKey(UnpackRPC(Pack(opts).rpc))
    case SignMessage(message, opts) => SignMessage(message, Unpack(OnWire(Pack(opts))))
    case VerifySignature(sig, message, opts) => VerifySignature(sig, message, Unpack(OnWire(Pack(opts))))
    case _ => call
  }

  // What a caller sees of a direct call through the protocol.
  function Seen<K>(call: Call, direct: Result<Value<K>, string>): Outcome<K> {
    if direct.Ok? then Returned(direct.value)
    else if direct.error != "" then Failed(PluginReturned(direct.error))
    else if call.VerifySignature? then Returned(Verified)
    else Panicked
  }

  // Every call, implementation and start state: the message arrives unchanged, values come back unchanged,
  // and failures come back with their text.
  lemma RemoteIsDirectOverWire<K(!new)>(call: Call, executable: string, exit: Exit, impl: Impl<K>, codec: KeyCodec<K>)
    requires LawfulCodec(codec) && Heard(exit)
    ensures Remote(call, executable, exit, impl, codec) == Seen(call, Direct(OverWire(call), impl))
  {
    hide Fold, Pack, Unpack, UnpackRPC, OnWire, Carry, RpcCarry;
  }

  // ----- when what arrives is what was given

  predicate CallSurvives(call: Call, start: View) {
    match call
    case PublicKey(opts) => SurvivesRPC(opts, start)
    case SignMessage(_, opts) => Survives(opts, start)
    case VerifySignature(_, _, opts) => Survives(opts, start)
    case _ => true
  }

  lemma SignViewArrives(opts: seq<Opt>, start: View)
    ensures Carry(Fold(Unpack(OnWire(Pack(opts))), start)) == Carry(Fold(opts, start)) <==> Survives(opts, start)
  {
    SurvivesIff(opts, start);
  }

  lemma RpcViewArrives(opts: seq<Opt>, start: View)
    ensures RpcCarry(Fold(UnpackRPC(Pack(opts).rpc), start)) == RpcCarry(Fold(opts, start)) <==>
            SurvivesRPC(opts, start)
  {
    var o := Pack(opts);
    FoldUnpacked(o.(message := MessageOptions(None, None)), start);
    assert Unpack(o.(message := MessageOptions(None, None))) == UnpackRPC(o.rpc);
    FoldIsLast(opts, ZERO);
    FoldIsLast(opts, start);
  }

  lemma SurvivorArrives<K>(call: Call, impl: Impl<K>)
    requires CallSurvives(call, impl.start)
    ensures Direct(OverWire(call), impl) == Direct(call, impl)
  {
    hide Fold, Pack, Unpack, UnpackRPC, OnWire, Carry, RpcCarry, Survives, SurvivesRPC;
    match call {
      case PublicKey(opts) => RpcViewArrives(opts, impl.start);
      case SignMessage(_, opts) => SignViewArrives(opts, impl.start);
      case VerifySignature(_, _, opts) => SignViewArrives(opts, impl.start);
      case _ =>
    }
  }

  // A surviving call is carried out as a direct one.
  lemma RemoteIsDirect<K(!new)>(call: Call, executable: string, exit: Exit, impl: Impl<K>, codec: KeyCodec<K>)
    requires LawfulCodec(codec) && Heard(exit) && CallSurvives(call, impl.start)
    ensures Remote(call, executable, exit, impl, codec) == Seen(call, Direct(call, impl))
  {
    hide Remote, Direct, Seen, CallSurvives;
    RemoteIsDirectOverWire(call, executable, exit, impl, codec);
    SurvivorArrives(call, impl);
  }

  ghost predicate SameVerdict<K>(remote: Outcome<K>, direct: Result<Value<K>, string>) {
    match direct
    case Ok(v) => remote == Returned(v)
    case Err(text) => remote == Failed(PluginReturned(text))
  }

  // Its verdict is kept exactly when the implementation does not fail with an empty error text, since an
  // empty ErrorMessage is how success is told.
  lemma RemoteRefinesDirectIff<K(!new)>(call: Call, executable: string, exit: Exit, impl: Impl<K>, codec: KeyCodec<K>)
    requires LawfulCodec(codec) && Heard(exit) && CallSurvives(call, impl.start)
    ensures SameVerdict(Remote(call, executable, exit, impl, codec), Direct(call, impl)) <==>
            Direct(call, impl) != Err("")
  {
    hide Remote, Direct, CallSurvives;
    RemoteIsDirect(call, executable, exit, impl, codec);
  }

  // An implementation that rejects with some option values and not with any others.
  function Discerning<K(!new)>(start: View, values: Carried, rpc: RpcValues, key: Result<K, string>): Impl<K> {
    Impl(start, "", [], (d, a) => Err("a"),
         v => if v == rpc then Err("b") else key,
         (m, v) => if v == values then Err("b") else Ok([]),
         (s, m, v) => if v == values then Err("b") else Ok(()))
  }

  // A call that does not survive is rejected directly and not rejected over the wire. For a public key, what
  // is returned instead is the given result.
  lemma LostCallIsDiscerned<K(!new)>(call: Call, start: View, key: Result<K, string>)
    requires !CallSurvives(call, start)
    ensures exists impl: Impl<K> ::
              && impl.start == start && Direct(call, impl) == Err("b")
              && (if call.PublicKey? then Direct(OverWire(call), impl) == AsKey(key)
                  else Direct(OverWire(call), impl).Ok?)
  {
    hide Pack, Unpack, UnpackRPC, OnWire, Carry, RpcCarry, Survives, SurvivesRPC;
    var opts := match call
      case PublicKey(o) => o
      case SignMessage(_, o) => o
      case VerifySignature(_, _, o) => o
      case _ => [];
    SignViewArrives(opts, start);
    RpcViewArrives(opts, start);
    var impl: Impl<K> := Discerning(start, Carry(Fold(opts, start)), RpcCarry(Fold(opts, start)), key);
    assert Direct(call, impl) == Err("b");
  }

  // Over all implementations with a given start state, silent failures aside.
  ghost predicate KeepsVerdicts<K(!new)>(call: Call, start: View, executable: string, exit: Exit, codec: KeyCodec<K>) {
    forall impl: Impl<K> :: impl.start == start && Direct(call, impl) != Err("") ==>
      SameVerdict(Remote(call, executable, exit, impl, codec), Direct(call, impl))
  }

  // Exactness: the protocol keeps the verdict of a call if and only if the call survives that state.
  lemma VerdictsKeptIff<K(!new)>(call: Call, start: View, executable: string, exit: Exit, codec: KeyCodec<K>)
    requires LawfulCodec(codec) && Heard(exit)
    ensures KeepsVerdicts(call, start, executable, exit, codec) <==> CallSurvives(call, start)
  {
    hide Remote, Direct, OverWire, CallSurvives;
    if CallSurvives(call, start) {
      forall impl: Impl<K> | impl.start == start && Direct(call, impl) != Err("")
        ensures SameVerdict(Remote(call, executable, exit, impl, codec), Direct(call, impl))
      {
        RemoteRefinesDirectIff(call, executable, exit, impl, codec);
      }
    } else {
      var key: Result<K, string> := Err("a");
      LostCallIsDiscerned<K>(call, start, key);
      var impl: Impl<K> :|
        && impl.start == start && Direct(call, impl) == Err("b")
        && (if call.PublicKey? then Direct(OverWire(call), impl) == AsKey(key) else Direct(OverWire(call), impl).Ok?);
      RemoteIsDirectOverWire(call, executable, exit, impl, codec);
      assert !SameVerdict(Remote(call, executable, exit, impl, codec), Direct(call, impl));
    }
  }

  // The same for success alone, whatever is returned and whatever the error says.
  ghost predicate KeepsSuccess<K(!new)>(call: Call, start: View, executable: string, exit: Exit, codec: KeyCodec<K>) {
    forall impl: Impl<K> :: impl.start == start && Direct(call, impl) != Err("") ==>
      (Remote(call, executable, exit, impl, codec).Returned? <==> Direct(call, impl).Ok?)
  }

  lemma VerdictIsSuccess<K(!new)>(remote: Outcome<K>, direct: Result<Value<K>, string>)
    requires SameVerdict(remote, direct)
    ensures remote.Returned? <==> direct.Ok?
  {
  }

  // Not even success is kept unless the call survives, whenever there is a key to return.
  lemma SuccessKeptIff<K(!new)>(call: Call, start: View, executable: string, exit: Exit, codec: KeyCodec<K>, key: K)
    requires LawfulCodec(codec) && Heard(exit)
    ensures KeepsSuccess(call, start, executable, exit, codec) <==> CallSurvives(call, start)
  {
    hide Remote, Direct, OverWire, CallSurvives, SameVerdict;
    if CallSurvives(call, start) {
      VerdictsKeptIff(call, start, executable, exit, codec);
      forall impl: Impl<K> | impl.start == start && Direct(call, impl) != Err("")
        ensures Remote(call, executable, exit, impl, codec).Returned? <==> Direct(call, impl).Ok?
      {
        VerdictIsSuccess(Remote(call, executable, exit, impl, codec), Direct(call, impl));
      }
    } else {
      LostCallIsDiscerned<K>(call, start, Ok(key));
      var impl: Impl<K> :|
        && impl.start == start && Direct(call, impl) == Err("b")
        && (if call.PublicKey? then Direct(OverWire(call), impl) == AsKey(Ok(key))
            else Direct(OverWire(call), impl).Ok?);
      RemoteIsDirectOverWire(call, executable, exit, impl, codec);
    }
  }

  // In particular some verifier rejects a signature and is read as accepting it, over no option lists but
  // those that survive.
  lemma RejectionTurnsAcceptance<K(!new)>(sig: bytes, message: bytes, opts: seq<Opt>, start: View, executable: string,
                                          exit: Exit, codec: KeyCodec<K>)
    requires LawfulCodec(codec) && Heard(exit)
    ensures (exists impl: Impl<K> ::
               && impl.start == start
               && Direct(VerifySignature(sig, message, opts), impl) == Err("b")
               && Remote(VerifySignature(sig, message, opts), executable, exit, impl, codec) == Returned(Verified))
            <==> !Survives(opts, start)
  {
    hide Remote, Survives, OnWire, Pack, Unpack, Fold, Carry;
    var call := VerifySignature(sig, message, opts);
    if Survives(opts, start) {
      forall impl: Impl<K> | impl.start == start && Direct(call, impl) == Err("b")
        ensures Remote(call, executable, exit, impl, codec) != Returned(Verified)
      {
        RemoteIsDirect(call, executable, exit, impl, codec);
      }
    } else {
      var key: Result<K, string> := Err("a");
      LostCallIsDiscerned<K>(call, start, key);
      var impl: Impl<K> :| impl.start == start && Direct(call, impl) == Err("b") && Direct(OverWire(call), impl).Ok?;
      RemoteIsDirectOverWire(call, executable, exit, impl, codec);
    }
  }

  // All calls at once: only start states with no deadline, key version, remote verification or digest.
  lemma AllCallsSurviveIff(start: View)
    ensures (forall call :: CallSurvives(call, start)) <==>
            start.ctx.deadline == None && start.keyVersion == "" && !start.remoteVerification && start.digest == None
  {
    if forall call :: CallSurvives(call, start) {
      forall opts: seq<Opt>
        ensures SameAcross(opts, start)
      {
        assert CallSurvives(SignMessage([], opts), start);
        SurvivesIff(opts, start);
      }
      SameAcrossIff(start);
    }
  }

  // So the protocol keeps the verdict of every call exactly when those four variables start at zero.
  lemma AllVerdictsKeptIff<K(!new)>(start: View, executable: string, exit: Exit, codec: KeyCodec<K>)
    requires LawfulCodec(codec) && Heard(exit)
    ensures (forall call :: KeepsVerdicts(call, start, executable, exit, codec)) <==>
            start.ctx.deadline == None && start.keyVersion == "" && !start.remoteVerification && start.digest == None
  {
    hide KeepsVerdicts, CallSurvives;
    forall call
      ensures KeepsVerdicts(call, start, executable, exit, codec) <==> CallSurvives(call, start)
    {
      VerdictsKeptIff(call, start, executable, exit, codec);
    }
    AllCallsSurviveIff(start);
  }

  // A client pinned to a key version, as the Vault client is, loses the pin unless the caller repeats it.
  lemma PinnedKeyVersionIsLost(message: bytes, opts: seq<Opt>, start: View)
    requires start.keyVersion != "" && LastKeyVersion(opts).None?
    ensures Fold(opts, start).keyVersion == start.keyVersion
    ensures Fold(Unpack(OnWire(Pack(opts))), start).keyVersion == ""
    ensures !CallSurvives(SignMessage(message, opts), start)
  {
    NormalForm(opts, start);
    FoldIsLast(opts, start);
  }

  // An exit code of one or more changes nothing; any other failure of the program is all there is.
  lemma ExitCodes<K>(call: Call, executable: string, exit: Exit, impl: Impl<K>, codec: KeyCodec<K>)
    ensures exit.ExitError? && exit.code >= 1 ==>
              Remote(call, executable, exit, impl, codec) == Remote(call, executable, Clean, impl, codec)
    ensures exit.NotRun? || (exit.ExitError? && exit.code < 1) ==>
              Remote(call, executable, exit, impl, codec) ==
              if call.DefaultAlgorithm?
                || call.SupportedAlgorithms? then Exited(ExecutingPlugin) else Failed(ExecutingPlugin)
  {
  }

  // A verifier that rejects every signature without a word is read as accepting them, from any start state.
  lemma SilentRejectionIsAccepted(impl: Impl<int>, codec: KeyCodec<int>, sig: bytes, message: bytes, opts: seq<Opt>)
    requires LawfulCodec(codec)
    requires forall s, m, v :: impl.verifySignature(s, m, v) == Err("")
    ensures Remote(VerifySignature(sig, message, opts), "plugin", Clean, impl, codec) == Returned(Verified)
  {
    hide Remote;
    RemoteIsDirectOverWire(VerifySignature(sig, message, opts), "plugin", Clean, impl, codec);
  }
}
