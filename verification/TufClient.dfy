/** pkg/tuf/client.go: initialization, updates and target retrieval of the TUF client. go-tuf's own client is
    a contract: the environment chooses what each of its calls answers, within that contract. */
module TufClient {
  import opened Wrappers
  import opened Bytes
  import opened TufCache

  datatype StatusKind = UnknownStatus | Active | Expired

  type UsageKind = nat

  // The custom metadata of a target: absent, not the expected JSON, or sigstore's.
  datatype CustomMeta =
    | NoCustom
    | Unreadable
    | Sigstore(usage: UsageKind, status: StatusKind)

  datatype TargetMeta = TargetMeta(length: nat, digest: bytes, custom: CustomMeta)

  type Targets = map<string, TargetMeta>

  // What does not change: the hash, the cache path of a name, and the embedded repository.
  datatype Env = Env(
    sum: bytes -> bytes,
    path: string -> string,
    embeddedReadable: bool,
    embedded: map<string, bytes>)

  // isValidTarget
  predicate ValidTarget(b: bytes, meta: TargetMeta, env: Env) {
    |b| == meta.length && env.sum(b) == meta.digest
  }

  // The metadata and targets a client works with: trusted metadata in memory (none before the first
  // update), the target cache in memory, and both on disk.
  datatype Store = Store(
    trusted: Option<Targets>,
    memory: map<string, bytes>,
    db: Option<Targets>,
    files: map<string, bytes>)

  // ----- the environment's choices

  // client.Update: new trusted metadata with the names it reports as updated, or a failure that may
  // leave any metadata behind.
  datatype UpdateOutcome =
    | Updated(targets: Targets, changed: set<string>)
    | UpdateFailed(left: Option<Targets>)

  // Writing the metadata to disk.
  datatype SyncOutcome = Synced | SyncFailed(left: Option<Targets>)

  // One update: its outcome, the iteration order over the updated names, and for each name what
  // client.Download yields and how the file write ends.
  datatype UpdateChoice = UpdateChoice(
    update: UpdateOutcome,
    sync: SyncOutcome,
    order: seq<string>,
    download: string -> Option<bytes>,
    write: string -> WriteOutcome)

  predicate Enumerates(order: seq<string>, names: set<string>) {
    && (forall i, j :: 0 <= i < j < |order| ==> order[i] != order[j])
    && (forall n :: n in names ==> n in order)
    && (forall i :: 0 <= i < |order| ==> order[i] in names)
  }

  predicate SameFile(a: TargetMeta, b: TargetMeta) {
    a.length == b.length && a.digest == b.digest
  }

  // go-tuf's contract for an update from given trusted metadata: at least every target whose file
  // metadata changed is reported, and downloads match the new trusted metadata.
  predicate Contract(trusted: Option<Targets>, u: UpdateChoice, env: Env) {
    u.update.Updated? ==>
      && u.update.changed <= u.update.targets.Keys
      && Enumerates(u.order, u.update.changed)
      && (forall n :: n in u.update.targets && n !in u.update.changed ==>
            trusted.Some? && n in trusted.value && SameFile(trusted.value[n], u.update.targets[n]))
      && (forall n :: n in u.update.changed && u.download(n).Some? ==>
            ValidTarget(u.download(n).value, u.update.targets[n], env))
  }

  // ----- what the operations do to the store

  function Cached(s: Store, env: Env, caching: bool, name: string): Option<bytes> {
    if caching then GetFrom(Layers(s.memory, s.files), env.path, name) else Lookup(s.memory, name)
  }

  function SetTarget(s: Store, env: Env, caching: bool, name: string, b: bytes, w: WriteOutcome): (Store, bool) {
    if caching then
      var l := SetIn(Layers(s.memory, s.files), env.path, name, b, w);
      (s.(memory := l.memory, files := l.files), w.Written?)
    else
      (s.(memory := s.memory[name := b]), true)
  }

  // The bytes of the embedded copy, unless it is absent or does not match.
  function EmbeddedBytes(name: string, meta: TargetMeta, env: Env): bytes {
    if name in env.embedded && ValidTarget(env.embedded[name], meta, env) then env.embedded[name] else []
  }

  function MaybeDownload(s: Store, env: Env, caching: bool, name: string, meta: TargetMeta,
                         download: Option<bytes>, w: WriteOutcome): (Store, bool)
  {
    var cached := Cached(s, env, caching, name);
    if cached.Some? && ValidTarget(cached.value, meta, env) then (s, true)
    else if !env.embeddedReadable then (s, false)
    else
      var b := EmbeddedBytes(name, meta, env);
      if b != [] then SetTarget(s, env, caching, name, b, w)
      else if download.None? then (s, false)
      else SetTarget(s, env, caching, name, download.value, w)
  }

  function DownloadAll(s: Store, env: Env, caching: bool, targets: Targets, order: seq<string>,
                       u: UpdateChoice): (Store, bool)
    requires forall i :: 0 <= i < |order| ==> order[i] in targets
    decreases |order|
  {
    if order == [] then (s, true)
    else
      var n := order[0];
      var (s', ok) := MaybeDownload(s, env, caching, n, targets[n], u.download(n), u.write(n));
      if !ok then (s', false) else DownloadAll(s', env, caching, targets, order[1..], u)
  }

  // The metadata part of an update.
  function UpdateMeta(s: Store, caching: bool, u: UpdateChoice): (Store, bool) {
    match u.update
    case UpdateFailed(left) => (s.(trusted := left), false)
    case Updated(targets, _) =>
      var s' := s.(trusted := Some(targets));
      if !caching then (s', true)
      else
        match u.sync
        case Synced => (s'.(db := Some(targets)), true)
        case SyncFailed(left) => (s'.(db := left), false)
  }

  function Update(s: Store, env: Env, caching: bool, u: UpdateChoice): (Store, bool)
    requires Contract(s.trusted, u, env)
  {
    var (s', ok) := UpdateMeta(s, caching, u);
    if !ok then (s', false)
    else
      assert forall i :: 0 <= i < |u.order| ==> u.order[i] in u.update.changed;
      DownloadAll(s', env, caching, u.update.targets, u.order, u)
  }

  // client.Target may refuse a name it has (expired metadata); the cache may lack it or hold other bytes.
  datatype GetError = MetadataError | NotCached | InvalidCached

  // A get whose metadata was read earlier than the cache: updates do not take the client's lock.
  function GetAcross(trusted: Option<Targets>, s: Store, env: Env, caching: bool, name: string, metaOk: bool)
    : Result<bytes, GetError>
  {
    if !metaOk || trusted.None? || name !in trusted.value then Err(MetadataError)
    else
      match Cached(s, env, caching, name)
      case None => Err(NotCached)
      case Some(b) => if ValidTarget(b, trusted.value[name], env) then Ok(b) else Err(InvalidCached)
  }

  function GetTarget(s: Store, env: Env, caching: bool, name: string, metaOk: bool): Result<bytes, GetError> {
    GetAcross(s.trusted, s, env, caching, name, metaOk)
  }

  // ----- the client object

  // tuf.db on disk.
  class MetaStore {
    var meta: Option<Targets>

    constructor (meta: Option<Targets>)
      ensures this.meta == meta
    {
      this.meta := meta;
    }

    method SetMeta(sync: SyncOutcome, from: Targets) returns (ok: bool)
      modifies this
      ensures ok == sync.Synced?
      ensures meta == if sync.Synced? then Some(from) else sync.left
    {
      meta := if sync.Synced? then Some(from) else sync.left;
      ok := sync.Synced?;
    }
  }

  class Tuf {
    const env: Env
    const caching: bool
    const targets: DiskCache
    const diskLocal: MetaStore
    var trusted: Option<Targets>

    // A new client: trusted metadata copied from disk when caching, an empty target cache.
    constructor (env: Env, caching: bool, fs: FileSystem, diskLocal: MetaStore)
      ensures this.env == env && this.caching == caching && this.diskLocal == diskLocal
      ensures Wired() && targets.fs == fs && fresh(targets) && fresh(targets.memory)
      ensures Content() == Store(if caching then diskLocal.meta else None, map[], diskLocal.meta, fs.files)
    {
      this.env := env;
      this.caching := caching;
      this.diskLocal := diskLocal;
      targets := new DiskCache(env.path, fs);
      trusted := if caching then diskLocal.meta else None;
    }

    ghost predicate Wired() {
      targets.path == env.path
    }

    ghost function Content(): Store
      reads this, targets.memory, targets.fs, diskLocal
    {
      Store(trusted, targets.memory.targets, diskLocal.meta, targets.fs.files)
    }

    method GetCached(name: string) returns (r: Option<bytes>)
      requires Wired()
      ensures r == Cached(Content(), env, caching, name)
    {
      if caching {
        r := targets.Get(name);
      } else {
        r := targets.memory.Get(name);
      }
    }

    method SetCached(name: string, b: bytes, w: WriteOutcome) returns (ok: bool)
      requires Wired()
      modifies targets.memory, targets.fs
      ensures (Content(), ok) == SetTarget(old(Content()), env, caching, name, b, w)
    {
      if caching {
        ok := targets.Set(name, b, w);
      } else {
        targets.memory.Set(name, b);
        ok := true;
      }
    }

    method MaybeDownloadRemoteTarget(name: string, meta: TargetMeta, download: Option<bytes>, w: WriteOutcome)
      returns (ok: bool)
      requires Wired()
      modifies targets.memory, targets.fs
      ensures (Content(), ok) == MaybeDownload(old(Content()), env, caching, name, meta, download, w)
      ensures var cached := old(Cached(Content(), env, caching, name));
              var hit := cached.Some? && |cached.value| == meta.length && env.sum(cached.value) == meta.digest;
              var local := name in env.embedded && env.embedded[name] != [] && |env.embedded[name]| == meta.length
                           && env.sum(env.embedded[name]) == meta.digest;
              && (hit ==> ok && Content() == old(Content()))
              && (!hit && !env.embeddedReadable ==> !ok && Content() == old(Content()))
              && (!hit && env.embeddedReadable && local ==>
                    targets.memory.targets == old(targets.memory.targets)[name := env.embedded[name]])
              && (!hit && env.embeddedReadable && !local && download.None? ==> !ok && Content() == old(Content()))
              && (!hit && env.embeddedReadable && !local && download.Some? ==>
                    targets.memory.targets == old(targets.memory.targets)[name := download.value])
    {
      var cachedTarget := GetCached(name);
      if cachedTarget.Some? && ValidTarget(cachedTarget.value, meta, env) {
        return true;
      }
      if !env.embeddedReadable {
        return false;
      }
      var buf: bytes := [];
      if name in env.embedded && ValidTarget(env.embedded[name], meta, env) {
        buf := buf + env.embedded[name];
      }
      if |buf| == 0 {
        if download.None? {
          return false;
        }
        buf := buf + download.value;
      }
      assert [] + EmbeddedBytes(name, meta, env) == EmbeddedBytes(name, meta, env);
      assert download.Some? ==> [] + download.value == download.value;
      ok := SetCached(name, buf, w);
    }

    method UpdateClient(u: UpdateChoice) returns (ok: bool)
      modifies this, diskLocal
      ensures (Content(), ok) == UpdateMeta(old(Content()), caching, u)
    {
      match u.update {
        case UpdateFailed(left) =>
          trusted := left;
          return false;
        case Updated(newTargets, _) =>
          trusted := Some(newTargets);
          if !caching {
            return true;
          }
          ok := diskLocal.SetMeta(u.sync, newTargets);
      }
    }

    method UpdateMetadataAndDownloadTargets(u: UpdateChoice) returns (ok: bool)
      requires Wired() && Contract(trusted, u, env)
      modifies this, diskLocal, targets.memory, targets.fs
      ensures (Content(), ok) == Update(old(Content()), env, caching, u)
    {
      ghost var start := Content();
      ok := UpdateClient(u);
      if !ok {
        return false;
      }
      var newTargets := u.update.targets;
      assert forall i :: 0 <= i < |u.order| ==> u.order[i] in u.update.changed;
      for i := 0 to |u.order|
        invariant Update(start, env, caching, u) == DownloadAll(Content(), env, caching, newTargets, u.order[i..], u)
      {
        var n := u.order[i];
        assert u.order[i..][1..] == u.order[i + 1..];
        ok := MaybeDownloadRemoteTarget(n, newTargets[n], u.download(n), u.write(n));
        if !ok {
          return false;
        }
      }
      ok := true;
    }

    method Get(name: string, metaOk: bool) returns (r: Result<bytes, GetError>)
      requires Wired()
      ensures r == GetTarget(Content(), env, caching, name, metaOk)
      ensures r == Err(MetadataError) <==> !metaOk || trusted.None? || name !in trusted.value
      ensures r.Ok? ==>
                && |r.value| == trusted.value[name].length && env.sum(r.value) == trusted.value[name].digest
                && Cached(Content(), env, caching, name) == Some(r.value)
      ensures r == Err(NotCached) ==> Cached(Content(), env, caching, name).None?
    {
      if !metaOk || trusted.None? || name !in trusted.value {
        return Err(MetadataError);
      }
      var targetBytes := GetCached(name);
      if targetBytes.None? {
        return Err(NotCached);
      }
      if !ValidTarget(targetBytes.value, trusted.value[name], env) {
        return Err(InvalidCached);
      }
      return Ok(targetBytes.value);
    }
  }

  // ----- the process: the singleton and its sticky error

  datatype InitError = LocalStoreError | RemoteStoreError | MetaError | RootError | ClientInitError

  datatype InitResult =
    | Initialized
    | ConstructionFailed(error: InitError)
    | MetaReadFailed
    | UpdateStepFailed

  // One call of initializeTUF: what the caller and the clock say, whether building a client would fail,
  // whether the metadata can be read afterwards, and the update it may make.
  datatype InitCall = InitCall(
    forceUpdate: bool,
    expired: bool,
    buildError: Option<InitError>,
    metaReadable: bool,
    update: UpdateChoice)

  datatype Process = Process(caching: bool, built: bool, error: Option<InitError>, store: Store)

  // The client is built on the first call only, successfully or not.
  function Build(p: Process, buildError: Option<InitError>): Process {
    if p.built || p.error.Some? then p
    else if buildError.Some? then p.(error := buildError)
    else
      p.(built := true,
         store := Store(if p.caching then p.store.db else None, map[], p.store.db, p.store.files))
  }

  predicate UpdateNeeded(p: Process, c: InitCall) {
    p.built && c.metaReadable && (p.store.trusted.None? || c.expired || c.forceUpdate)
  }

  predicate LawfulCall(p: Process, c: InitCall, env: Env) {
    var p' := Build(p, c.buildError);
    UpdateNeeded(p', c) ==> Contract(p'.store.trusted, c.update, env)
  }

  function Initialize(p: Process, c: InitCall, env: Env): (Process, InitResult)
    requires LawfulCall(p, c, env)
  {
    var p' := Build(p, c.buildError);
    if !p'.built then (p', ConstructionFailed(Or(p'.error, ClientInitError)))
    else if !c.metaReadable then (p', MetaReadFailed)
    else if !UpdateNeeded(p', c) then (p', Initialized)
    else
      var (store, ok) := Update(p'.store, env, p'.caching, c.update);
      (p'.(store := store), if ok then Initialized else UpdateStepFailed)
  }

  // The package-level variables of one process, with the disk it shares with others.
  class Globals {
    const env: Env
    const caching: bool
    const fs: FileSystem
    const db: MetaStore
    var singleton: Tuf?
    var error: Option<InitError>

    constructor (env: Env, caching: bool, fs: FileSystem, db: MetaStore)
      ensures Inv() && State() == Process(caching, false, None, Store(None, map[], db.meta, fs.files))
      ensures this.env == env
    {
      this.env := env;
      this.caching := caching;
      this.fs := fs;
      this.db := db;
      singleton := null;
      error := None;
    }

    ghost predicate Inv()
      reads this
    {
      && (singleton != null ==>
            && singleton.Wired() && singleton.env == env && singleton.caching == caching
            && singleton.targets.fs == fs && singleton.diskLocal == db)
      && (singleton != null ==> error.None?)
    }

    ghost function Frame(): set<object>
      reads this
    {
      {this, fs, db} + if singleton == null then {} else {singleton, singleton.targets.memory}
    }

    ghost function State(): Process
      requires Inv()
      reads this, Frame()
    {
      Process(caching, singleton != null, error,
              if singleton == null then Store(None, map[], db.meta, fs.files) else singleton.Content())
    }

    method InitializeTUF(c: InitCall) returns (r: InitResult)
      requires Inv() && LawfulCall(State(), c, env)
      modifies Frame()
      ensures Inv()
      ensures (State(), r) == Initialize(old(State()), c, env)
    {
      ghost var before := State();
      if singleton == null && error.None? {
        if c.buildError.Some? {
          error := c.buildError;
        } else {
          singleton := new Tuf(env, caching, fs, db);
        }
      }
      assert State() == Build(before, c.buildError);
      if singleton == null {
        return ConstructionFailed(Or(error, ClientInitError));
      }
      if !c.metaReadable {
        return MetaReadFailed;
      }
      if singleton.trusted.Some? && !c.expired && !c.forceUpdate {
        return Initialized;
      }
      var ok := singleton.UpdateMetadataAndDownloadTargets(c.update);
      return if ok then Initialized else UpdateStepFailed;
    }
  }
}
