/** Runs of the TUF client over processes that live one after another on the same disk: which targets an
    initialization leaves retrievable, what happens to a target whose download failed, what a get that
    straddles an update returns, and what the content of the target cache cannot influence. */
module TufRuns {
  import opened Wrappers
  import opened Bytes
  import opened TufCache
  import opened TufClient

  datatype Event =
    | InitEvent(call: InitCall)
    | GetEvent(name: string, metaOk: bool)
    | RestartEvent(caching: bool)
    | TamperEvent(db: Option<Targets>, files: map<string, bytes>)

  predicate LawfulEvent(p: Process, e: Event, env: Env) {
    e.InitEvent? ==> LawfulCall(p, e.call, env)
  }

  function Next(p: Process, e: Event, env: Env): Process
    requires LawfulEvent(p, e, env)
  {
    match e
    case InitEvent(call) => Initialize(p, call, env).0
    case GetEvent(_, _) => p
    case RestartEvent(caching) => Process(caching, false, None, Store(None, map[], p.store.db, p.store.files))
    case TamperEvent(db, files) => p.(store := p.store.(db := db, files := files))
  }

  // A restart keeps the disk and nothing else.
  lemma RestartForgets(p: Process, caching: bool, env: Env)
    ensures var q := Next(p, RestartEvent(caching), env);
            && q.caching == caching && !q.built && q.error.None? && q.store.trusted.None? && q.store.memory == map[]
            && q.store.db == p.store.db && q.store.files == p.store.files
  {
  }

  // go-tuf keeps its contract in every step of the run.
  predicate LawfulRun(p: Process, events: seq<Event>, env: Env)
    decreases |events|
  {
    events == [] || (LawfulEvent(p, events[0], env) && LawfulRun(Next(p, events[0], env), events[1..], env))
  }

  function After(p: Process, events: seq<Event>, env: Env): Process
    requires LawfulRun(p, events, env)
    decreases |events|
  {
    if events == [] then p else After(Next(p, events[0], env), events[1..], env)
  }

  // Nothing on disk and nothing in memory.
  function Fresh(caching: bool): Process {
    Process(caching, false, None, Store(None, map[], None, map[]))
  }

  // No update step fails, nobody else writes to the disk, and all targets ever published are these.
  predicate GoodEvent(p: Process, e: Event, env: Env, names: set<string>)
    requires LawfulEvent(p, e, env)
  {
    match e
    case InitEvent(call) =>
      && Initialize(p, call, env).1 != UpdateStepFailed
      && (call.update.update.Updated? ==> call.update.update.targets.Keys <= names)
    case TamperEvent(_, _) => false
    case _ => true
  }

  predicate GoodRun(p: Process, events: seq<Event>, env: Env, names: set<string>)
    requires LawfulRun(p, events, env)
    decreases |events|
  {
    events == [] || (GoodEvent(p, events[0], env, names) && GoodRun(Next(p, events[0], env), events[1..], env, names))
  }

  // ----- the invariant

  // Where a client keeps a target for good: on disk when caching, else in memory.
  predicate Durable(s: Store, env: Env, caching: bool, n: string, meta: TargetMeta) {
    if caching then env.path(n) in s.files && ValidTarget(s.files[env.path(n)], meta, env)
    else n in s.memory && ValidTarget(s.memory[n], meta, env)
  }

  // The memory only holds what is also on disk.
  predicate Coherent(s: Store, env: Env, caching: bool, names: set<string>) {
    && s.memory.Keys <= names
    && (caching ==> forall n :: n in s.memory ==> env.path(n) in s.files && s.files[env.path(n)] == s.memory[n])
  }

  predicate AllDurable(s: Store, env: Env, caching: bool, targets: Targets) {
    forall n :: n in targets ==> Durable(s, env, caching, n, targets[n])
  }

  predicate Invariant(p: Process, env: Env, names: set<string>) {
    && (p.store.db.Some? ==> p.store.db.value.Keys <= names && AllDurable(p.store, env, true, p.store.db.value))
    && (!p.built ==> p.store.trusted == None && p.store.memory == map[])
    && (p.built ==> Coherent(p.store, env, p.caching, names))
    && (p.built && p.caching ==> p.store.trusted == p.store.db)
    && (p.built && p.store.trusted.Some? ==>
          p.store.trusted.value.Keys <= names && AllDurable(p.store, env, p.caching, p.store.trusted.value))
  }

  // What may change when one name is stored: its own entries, nobody else's.
  predicate OnlyTouches(s: Store, s': Store, env: Env, caching: bool, n: string, names: set<string>) {
    && s'.trusted == s.trusted && s'.db == s.db
    && (!caching ==> s'.files == s.files)
    && (forall m :: m in names && m != n ==> Lookup(s'.memory, m) == Lookup(s.memory, m))
    && (forall m :: m in names && m != n ==> Lookup(s'.files, env.path(m)) == Lookup(s.files, env.path(m)))
  }

  lemma SetTargetGood(s: Store, env: Env, caching: bool, n: string, b: bytes, meta: TargetMeta, w: WriteOutcome,
                      names: set<string>)
    requires DistinctPaths(env.path, names) && n in names && Coherent(s, env, caching, names)
    requires ValidTarget(b, meta, env)
    requires SetTarget(s, env, caching, n, b, w).1
    ensures var s' := SetTarget(s, env, caching, n, b, w).0;
            Coherent(s', env, caching, names) && Durable(s', env, caching, n, meta)
              && OnlyTouches(s, s', env, caching, n, names)
  {
  }

  lemma MaybeDownloadGood(s: Store, env: Env, caching: bool, n: string, meta: TargetMeta, download: Option<bytes>,
                          w: WriteOutcome, names: set<string>)
    requires DistinctPaths(env.path, names) && n in names && Coherent(s, env, caching, names)
    requires download.Some? ==> ValidTarget(download.value, meta, env)
    requires MaybeDownload(s, env, caching, n, meta, download, w).1
    ensures var s' := MaybeDownload(s, env, caching, n, meta, download, w).0;
            Coherent(s', env, caching, names) && Durable(s', env, caching, n, meta)
              && OnlyTouches(s, s', env, caching, n, names)
  {
    hide SetTarget;
    var b := EmbeddedBytes(n, meta, env);
    if SetTarget(s, env, caching, n, b, w).1 && ValidTarget(b, meta, env) {
      SetTargetGood(s, env, caching, n, b, meta, w, names);
    }
    if download.Some? && SetTarget(s, env, caching, n, download.value, w).1 {
      SetTargetGood(s, env, caching, n, download.value, meta, w, names);
    }
  }

  lemma {:induction false} DownloadAllGood(s: Store, env: Env, caching: bool, targets: Targets, order: seq<string>,
                                           u: UpdateChoice,
                                           names: set<string>)
    requires DistinctPaths(env.path, names) && targets.Keys <= names && Coherent(s, env, caching, names)
    requires forall i :: 0 <= i < |order| ==> order[i] in targets
    requires forall i, j :: 0 <= i < j < |order| ==> order[i] != order[j]
    requires forall i :: 0 <= i < |order| && u.download(order[i]).Some? ==>
               ValidTarget(u.download(order[i]).value, targets[order[i]], env)
    requires DownloadAll(s, env, caching, targets, order, u).1
    ensures var s' := DownloadAll(s, env, caching, targets, order, u).0;
            && Coherent(s', env, caching, names)
            && s'.trusted == s.trusted && s'.db == s.db && (!caching ==> s'.files == s.files)
            && (forall n :: n in order ==> Durable(s', env, caching, n, targets[n]))
            && (forall n, meta :: n in names && n !in order && Durable(s, env, caching, n, meta) ==>
                Durable(s', env, caching, n, meta))
    decreases |order|
  {
    hide MaybeDownload, ValidTarget;
    if order == [] {
    } else {
      var n := order[0];
      MaybeDownloadGood(s, env, caching, n, targets[n], u.download(n), u.write(n), names);
      var s1 := MaybeDownload(s, env, caching, n, targets[n], u.download(n), u.write(n)).0;
      assert n !in order[1..];
      DownloadAllGood(s1, env, caching, targets, order[1..], u, names);
      assert order == [n] + order[1..];
    }
  }

  lemma SameFileDurable(s: Store, env: Env, caching: bool, n: string, a: TargetMeta, b: TargetMeta)
    requires SameFile(a, b) && Durable(s, env, caching, n, a)
    ensures Durable(s, env, caching, n, b)
  {
  }

  // A successful update leaves every trusted target durable.
  lemma UpdateGood(p: Process, u: UpdateChoice, env: Env, names: set<string>)
    requires DistinctPaths(env.path, names) && Invariant(p, env, names) && p.built
    requires Contract(p.store.trusted, u, env)
    requires u.update.Updated? ==> u.update.targets.Keys <= names
    requires Update(p.store, env, p.caching, u).1
    ensures Invariant(p.(store := Update(p.store, env, p.caching, u).0), env, names)
  {
    var targets := u.update.targets;
    var s1 := UpdateMeta(p.store, p.caching, u).0;
    DownloadAllGood(s1, env, p.caching, targets, u.order, u, names);
    var s2 := DownloadAll(s1, env, p.caching, targets, u.order, u).0;
    forall n | n in targets
      ensures Durable(s2, env, p.caching, n, targets[n])
    {
      if n !in u.update.changed {
        var was := p.store.trusted.value[n];
        assert Durable(s1, env, p.caching, n, was);
        SameFileDurable(s1, env, p.caching, n, was, targets[n]);
      }
    }
  }

  lemma NextKeepsInvariant(p: Process, e: Event, env: Env, names: set<string>)
    requires DistinctPaths(env.path, names) && Invariant(p, env, names)
    requires LawfulEvent(p, e, env) && GoodEvent(p, e, env, names)
    ensures Invariant(Next(p, e, env), env, names)
  {
    if e.InitEvent? {
      hide Update, Contract;
      var p1 := Build(p, e.call.buildError);
      assert Invariant(p1, env, names);
      if UpdateNeeded(p1, e.call) {
        UpdateGood(p1, e.call.update, env, names);
      }
    }
  }

  lemma {:induction false} GoodRunKeepsInvariant(p: Process, events: seq<Event>, env: Env, names: set<string>)
    requires DistinctPaths(env.path, names) && Invariant(p, env, names)
    requires LawfulRun(p, events, env) && GoodRun(p, events, env, names)
    ensures Invariant(After(p, events, env), env, names)
    decreases |events|
  {
    if events == [] {
    } else {
      NextKeepsInvariant(p, events[0], env, names);
      GoodRunKeepsInvariant(Next(p, events[0], env), events[1..], env, names);
    }
  }

  // ----- what follows for callers

  predicate Serves(p: Process, env: Env) {
    && p.store.trusted.Some?
    && forall n :: n in p.store.trusted.value ==>
         && GetTarget(p.store, env, p.caching, n, true).Ok?
         && ValidTarget(GetTarget(p.store, env, p.caching, n, true).value, p.store.trusted.value[n], env)
  }

  // From an empty disk, in every run without failed update steps, and over any restarts with or without
  // the disk cache: a successful initialization leaves every trusted target retrievable and valid.
  lemma SuccessfulInitServesEverything(caching: bool, events: seq<Event>, call: InitCall, env: Env, names: set<string>)
    requires DistinctPaths(env.path, names)
    requires LawfulRun(Fresh(caching), events, env) && GoodRun(Fresh(caching), events, env, names)
    requires var p := After(Fresh(caching), events, env);
             LawfulCall(p, call, env) && GoodEvent(p, InitEvent(call), env, names)
               && Initialize(p, call, env).1 == Initialized
    ensures Serves(Initialize(After(Fresh(caching), events, env), call, env).0, env)
    ensures var q := Initialize(After(Fresh(caching), events, env), call, env).0;
            && q.store.trusted.Some?
            && forall n :: n in q.store.trusted.value ==>
                 var r := GetTarget(q.store, env, q.caching, n, true);
                 && r.Ok? && |r.value| == q.store.trusted.value[n].length
                 && env.sum(r.value) == q.store.trusted.value[n].digest
  {
    GoodRunKeepsInvariant(Fresh(caching), events, env, names);
    var p := After(Fresh(caching), events, env);
    NextKeepsInvariant(p, InitEvent(call), env, names);
    InitializedHasMetadata(p, call, env);
    ServesWhenDurable(Initialize(p, call, env).0, env, names);
  }

  lemma InitializedHasMetadata(p: Process, call: InitCall, env: Env)
    requires LawfulCall(p, call, env) && Initialize(p, call, env).1 == Initialized
    ensures Initialize(p, call, env).0.built && Initialize(p, call, env).0.store.trusted.Some?
  {
    var p1 := Build(p, call.buildError);
    if UpdateNeeded(p1, call) {
      DownloadKeepsTrusted(UpdateMeta(p1.store, p1.caching, call.update).0, env, p1.caching, call.update);
    }
  }

  // A call that succeeds has updated if it was forced, or the stored metadata is absent or out of date, and
  // otherwise kept what was stored.
  lemma InitializedIsCurrent(p: Process, call: InitCall, env: Env)
    requires LawfulCall(p, call, env) && Initialize(p, call, env).1 == Initialized
    ensures var q := Initialize(p, call, env).0;
            var stored := if p.built then p.store.trusted else if p.caching then p.store.db else None;
            if call.forceUpdate || call.expired || stored.None? then
              call.update.update.Updated? && q.store.trusted == Some(call.update.update.targets)
            else
              q.store.trusted == stored && q.store.db == p.store.db && q.store.files == p.store.files
  {
    var p1 := Build(p, call.buildError);
    if UpdateNeeded(p1, call) {
      DownloadKeepsTrusted(UpdateMeta(p1.store, p1.caching, call.update).0, env, p1.caching, call.update);
    }
  }

  lemma DownloadKeepsTrusted(s: Store, env: Env, caching: bool, u: UpdateChoice)
    requires u.update.Updated? && forall i :: 0 <= i < |u.order| ==> u.order[i] in u.update.targets
    ensures var s' := DownloadAll(s, env, caching, u.update.targets, u.order, u).0;
            s'.trusted == s.trusted && s'.db == s.db
  {
    DownloadsKeepTrusted(s, env, caching, u.update.targets, u.order, u);
  }

  lemma {:induction false} DownloadsKeepTrusted(s: Store, env: Env, caching: bool, targets: Targets,
                                                order: seq<string>, u: UpdateChoice)
    requires forall i :: 0 <= i < |order| ==> order[i] in targets
    ensures var s' := DownloadAll(s, env, caching, targets, order, u).0; s'.trusted == s.trusted && s'.db == s.db
    decreases |order|
  {
    if order == [] {
    } else {
      var n := order[0];
      DownloadsKeepTrusted(MaybeDownload(s, env, caching, n, targets[n], u.download(n), u.write(n)).0, env, caching,
                           targets, order[1..], u);
    }
  }

  lemma ServesWhenDurable(p: Process, env: Env, names: set<string>)
    requires Invariant(p, env, names) && p.built && p.store.trusted.Some?
    ensures Serves(p, env)
  {
    forall n | n in p.store.trusted.value
      ensures GetTarget(p.store, env, p.caching, n, true).Ok?
    {
      assert Durable(p.store, env, p.caching, n, p.store.trusted.value[n]);
    }
  }

  // ----- what the target cache cannot do

  predicate SameMetadata(p: Process, q: Process) {
    && p.caching == q.caching && p.built == q.built && p.error == q.error
    && p.store.trusted == q.store.trusted && p.store.db == q.store.db
  }

  // Two steps that may differ in everything about target files: what is on disk, what is downloaded, in
  // which order, and how every write of one ends.
  predicate SameButTargets(e: Event, f: Event) {
    match e
    case InitEvent(c) =>
      && f.InitEvent?
      && c.forceUpdate == f.call.forceUpdate && c.expired == f.call.expired && c.metaReadable == f.call.metaReadable
      && c.buildError == f.call.buildError
      && c.update.update == f.call.update.update && c.update.sync == f.call.update.sync
    case GetEvent(_, _) => f.GetEvent?
    case RestartEvent(caching) => f == RestartEvent(caching)
    case TamperEvent(db, _) => f.TamperEvent? && f.db == db
  }

  lemma UpdateMetadata(s: Store, env: Env, caching: bool, u: UpdateChoice)
    requires Contract(s.trusted, u, env)
    ensures var s', m := Update(s, env, caching, u).0, UpdateMeta(s, caching, u).0;
            s'.trusted == m.trusted && s'.db == m.db
  {
    var (m, ok) := UpdateMeta(s, caching, u);
    if ok {
      DownloadKeepsTrusted(m, env, caching, u);
    }
  }

  lemma NextSameMetadata(p: Process, q: Process, e: Event, f: Event, env: Env)
    requires SameMetadata(p, q) && SameButTargets(e, f)
    requires LawfulEvent(p, e, env) && LawfulEvent(q, f, env)
    ensures SameMetadata(Next(p, e, env), Next(q, f, env))
  {
    if e.InitEvent? {
      hide Update, Contract;
      var p1, q1 := Build(p, e.call.buildError), Build(q, f.call.buildError);
      if UpdateNeeded(p1, e.call) {
        UpdateMetadata(p1.store, env, p1.caching, e.call.update);
        UpdateMetadata(q1.store, env, q1.caching, f.call.update);
      }
    }
  }

  // Nothing that happens to target files, in any run, changes which metadata is trusted.
  lemma {:induction false} TargetsNeverSteerMetadata(p: Process, q: Process, events: seq<Event>, others: seq<Event>,
                                                     env: Env)
    requires SameMetadata(p, q) && LawfulRun(p, events, env) && LawfulRun(q, others, env)
    requires |events| == |others| && forall i :: 0 <= i < |events| ==> SameButTargets(events[i], others[i])
    ensures SameMetadata(After(p, events, env), After(q, others, env))
    decreases |events|
  {
    hide Next, SameMetadata, SameButTargets;
    if events == [] {
    } else {
      NextSameMetadata(p, q, events[0], others[0], env);
      TargetsNeverSteerMetadata(Next(p, events[0], env), Next(q, others[0], env), events[1..], others[1..], env);
    }
  }

  // Two byte strings that nobody is expected to find.
  predicate Collision(env: Env, a: bytes, b: bytes) {
    a != b && |a| == |b| && env.sum(a) == env.sum(b)
  }

  // The check at the end of every get.
  lemma GetNeverMismatches(p: Process, events: seq<Event>, env: Env, name: string, metaOk: bool)
    requires LawfulRun(p, events, env)
    requires var q := After(p, events, env); GetTarget(q.store, env, q.caching, name, metaOk).Ok?
    ensures var q := After(p, events, env);
            && q.store.trusted.Some? && name in q.store.trusted.value
            && ValidTarget(GetTarget(q.store, env, q.caching, name, metaOk).value, q.store.trusted.value[name], env)
  {
  }

  // So a cache that others write to can make a get fail, but not make it return anything else, short of a
  // collision of the hash.
  lemma TamperedCacheCannotMislead(p: Process, q: Process, events: seq<Event>, others: seq<Event>, env: Env,
                                   name: string)
    requires SameMetadata(p, q) && LawfulRun(p, events, env) && LawfulRun(q, others, env)
    requires |events| == |others| && forall i :: 0 <= i < |events| ==> SameButTargets(events[i], others[i])
    requires var p', q' := After(p, events, env), After(q, others, env);
             GetTarget(p'.store, env, p'.caching, name, true).Ok?
               && GetTarget(q'.store, env, q'.caching, name, true).Ok?
    ensures var p', q' := After(p, events, env), After(q, others, env);
            var r1 := GetTarget(p'.store, env, p'.caching, name, true);
            var r2 := GetTarget(q'.store, env, q'.caching, name, true);
            && (r1 == r2 || Collision(env, r1.value, r2.value))
            && p'.store.trusted.Some? && name in p'.store.trusted.value
            && ValidTarget(r1.value, p'.store.trusted.value[name], env)
  {
    TargetsNeverSteerMetadata(p, q, events, others, env);
    GetNeverMismatches(p, events, env, name, true);
    GetNeverMismatches(q, others, env, name, true);
  }

  // ----- when an update succeeds

  lemma {:induction false} DownloadsSucceed(s: Store, env: Env, caching: bool, targets: Targets, order: seq<string>,
                                            u: UpdateChoice)
    requires env.embeddedReadable && forall i :: 0 <= i < |order| ==> order[i] in targets
    requires forall i :: 0 <= i < |order| ==> u.download(order[i]).Some? && (caching ==> u.write(order[i]).Written?)
    ensures DownloadAll(s, env, caching, targets, order, u).1
    decreases |order|
  {
    if order == [] {
    } else {
      var n := order[0];
      DownloadsSucceed(MaybeDownload(s, env, caching, n, targets[n], u.download(n), u.write(n)).0, env, caching,
                       targets,
                       order[1..], u);
    }
  }

  // Nothing but go-tuf, the disk and the network makes an initialization fail: a call whose metadata arrives
  // and is stored, and whose downloads and writes work, succeeds, and so does one that needs no update.
  lemma InitializationSucceeds(p: Process, call: InitCall, env: Env)
    requires LawfulCall(p, call, env) && call.metaReadable && env.embeddedReadable
    requires p.error.None? && (p.built || call.buildError.None?)
    requires call.update.update.Updated? && (p.caching ==> call.update.sync.Synced?)
    requires forall n :: n in call.update.update.changed ==>
               call.update.download(n).Some? && (p.caching ==> call.update.write(n).Written?)
    ensures Initialize(p, call, env).1 == Initialized
  {
    var b := Build(p, call.buildError);
    if UpdateNeeded(b, call) {
      var u := call.update;
      assert forall i :: 0 <= i < |u.order| ==> u.order[i] in u.update.changed;
      DownloadsSucceed(UpdateMeta(b.store, b.caching, u).0, env, b.caching, u.update.targets, u.order, u);
    }
  }

  // ----- exactly which targets an initialization leaves retrievable

  predicate CachedValid(s: Store, env: Env, caching: bool, n: string, meta: TargetMeta) {
    var b := Cached(s, env, caching, n); b.Some? && ValidTarget(b.value, meta, env)
  }

  lemma SetTargetCaches(s: Store, env: Env, caching: bool, n: string, b: bytes, w: WriteOutcome, m: string)
    requires n != m ==> env.path(n) != env.path(m)
    ensures Cached(SetTarget(s, env, caching, n, b, w).0, env, caching, m) ==
            if m == n then Some(b) else Cached(s, env, caching, m)
  {
  }

  lemma MaybeDownloadCaches(s: Store, env: Env, caching: bool, n: string, meta: TargetMeta, download: Option<bytes>,
                            w: WriteOutcome, m: string)
    requires n != m ==> env.path(n) != env.path(m)
    requires download.Some? ==> ValidTarget(download.value, meta, env)
    ensures var (s', ok) := MaybeDownload(s, env, caching, n, meta, download, w);
            && (n != m ==> Cached(s', env, caching, m) == Cached(s, env, caching, m))
            && (ok ==> CachedValid(s', env, caching, n, meta))
  {
    hide Cached, SetTarget;
    var b := EmbeddedBytes(n, meta, env);
    SetTargetCaches(s, env, caching, n, b, w, m);
    SetTargetCaches(s, env, caching, n, b, w, n);
    if download.Some? {
      SetTargetCaches(s, env, caching, n, download.value, w, m);
      SetTargetCaches(s, env, caching, n, download.value, w, n);
    }
  }

  lemma {:induction false} DownloadAllCaches(s: Store, env: Env, caching: bool, targets: Targets, order: seq<string>,
                                             u: UpdateChoice,
                                             m: string)
    requires forall i :: 0 <= i < |order| ==>
             order[i] in targets && (order[i] != m ==> env.path(order[i]) != env.path(m))
    requires forall i, j :: 0 <= i < j < |order| ==> order[i] != order[j]
    requires forall i :: 0 <= i < |order| && u.download(order[i]).Some? ==>
               ValidTarget(u.download(order[i]).value, targets[order[i]], env)
    requires DownloadAll(s, env, caching, targets, order, u).1
    ensures var s' := DownloadAll(s, env, caching, targets, order, u).0;
            if m in order then CachedValid(s', env, caching, m, targets[m])
            else Cached(s', env, caching, m) == Cached(s, env, caching, m)
    decreases |order|
  {
    hide Cached, MaybeDownload;
    if order == [] {
    } else {
      var n := order[0];
      assert order == [n] + order[1..];
      MaybeDownloadCaches(s, env, caching, n, targets[n], u.download(n), u.write(n), m);
      var s1 := MaybeDownload(s, env, caching, n, targets[n], u.download(n), u.write(n)).0;
      assert n !in order[1..];
      DownloadAllCaches(s1, env, caching, targets, order[1..], u, m);
    }
  }

  // From any state at all: after a successful initialization a trusted target can be retrieved exactly when
  // this call's update reported it as changed, or what was cached before is valid for its new metadata.
  lemma GetSucceedsIff(p: Process, c: InitCall, env: Env, names: set<string>, n: string)
    requires DistinctPaths(env.path, names)
    requires LawfulCall(p, c, env) && Initialize(p, c, env).1 == Initialized
    requires c.update.update.Updated? ==> c.update.update.targets.Keys <= names
    requires var q := Initialize(p, c, env).0; q.store.trusted.Some? && n in q.store.trusted.value
    ensures var b, q := Build(p, c.buildError), Initialize(p, c, env).0;
            GetTarget(q.store, env, q.caching, n, true).Ok? <==>
            || (UpdateNeeded(b, c) && n in c.update.update.changed)
            || CachedValid(b.store, env, b.caching, n, q.store.trusted.value[n])
  {
    hide Cached;
    var b := Build(p, c.buildError);
    if UpdateNeeded(b, c) {
      var u := c.update;
      var s1 := UpdateMeta(b.store, b.caching, u).0;
      DownloadKeepsTrusted(s1, env, b.caching, u);
      DownloadAllCaches(s1, env, b.caching, u.update.targets, u.order, u, n);
      MetaLeavesCache(b.store, env, b.caching, u, n);
    }
  }

  lemma MetaLeavesCache(s: Store, env: Env, caching: bool, u: UpdateChoice, n: string)
    ensures Cached(UpdateMeta(s, caching, u).0, env, caching, n) == Cached(s, env, caching, n)
  {
  }

  // ----- a get that straddles an update

  // In a run without failed update steps, a get reads its metadata before an update and the cache after any
  // number of that update's downloads. It succeeds unless the target is one of those and has other content.
  lemma StraddlingGetIff(caching: bool, events: seq<Event>, u: UpdateChoice, i: nat, env: Env, names: set<string>,
                         n: string)
    requires DistinctPaths(env.path, names)
    requires LawfulRun(Fresh(caching), events, env) && GoodRun(Fresh(caching), events, env, names)
    requires var p := After(Fresh(caching), events, env);
             && p.built && p.store.trusted.Some? && n in p.store.trusted.value
             && Contract(p.store.trusted, u, env) && u.update.Updated? && u.update.targets.Keys <= names
             && i <= |u.order| && UpdateMeta(p.store, p.caching, u).1
    requires var p := After(Fresh(caching), events, env);
             assert forall k :: 0 <= k < i ==> u.order[k] in u.update.changed;
             DownloadAll(UpdateMeta(p.store, p.caching, u).0, env, p.caching, u.update.targets, u.order[..i], u).1
    ensures var p := After(Fresh(caching), events, env);
            var now := DownloadAll(UpdateMeta(p.store, p.caching, u).0, env, p.caching, u.update.targets, u.order[..i],
                                   u).0;
            GetAcross(p.store.trusted, now, env, p.caching, n, true).Ok? <==>
            n !in u.order[..i] || SameFile(p.store.trusted.value[n], u.update.targets[n])
  {
    hide Cached;
    var p := After(Fresh(caching), events, env);
    GoodRunKeepsInvariant(Fresh(caching), events, env, names);
    assert forall k :: 0 <= k < i ==> u.order[k] in u.update.changed;
    DurableIsCached(p, env, names, n);
    MetaLeavesCache(p.store, env, p.caching, u, n);
    DownloadAllCaches(UpdateMeta(p.store, p.caching, u).0, env, p.caching, u.update.targets, u.order[..i], u, n);
  }

  lemma DurableIsCached(p: Process, env: Env, names: set<string>, n: string)
    requires Invariant(p, env, names) && p.built && p.store.trusted.Some? && n in p.store.trusted.value
    ensures CachedValid(p.store, env, p.caching, n, p.store.trusted.value[n])
  {
    assert Durable(p.store, env, p.caching, n, p.store.trusted.value[n]);
  }

  // An update that publishes one target with content b.
  function Publish(env: Env, a: string, b: bytes): UpdateChoice {
    var meta := TargetMeta(|b|, env.sum(b), NoCustom);
    UpdateChoice(Updated(map[a := meta], {a}), Synced, [a], n => Some(b), n => Written)
  }

  lemma PublishStores(s: Store, env: Env, a: string, b: bytes)
    requires a !in env.embedded && env.embeddedReadable
    requires !CachedValid(s, env, true, a, TargetMeta(|b|, env.sum(b), NoCustom))
    ensures var targets := Some(map[a := TargetMeta(|b|, env.sum(b), NoCustom)]);
            && Contract(s.trusted, Publish(env, a, b), env)
            && Update(s, env, true, Publish(env, a, b)) ==
               (Store(targets, s.memory[a := b], targets, s.files[env.path(a) := b]), true)
  {
    var meta := TargetMeta(|b|, env.sum(b), NoCustom);
    var targets := Some(map[a := meta]);
    DownloadOne(s.(trusted := targets, db := targets), env, a, meta, Publish(env, a, b), b);
  }

  // Such a get: an initialization stores one byte, an update another, and the get reads across the latter.
  lemma StraddlingGetExample(env: Env, a: string)
    requires a !in env.embedded && env.embeddedReadable && env.sum([1]) != env.sum([2])
    ensures var call := InitCall(true, false, None, true, Publish(env, a, [1]));
            && LawfulCall(Fresh(true), call, env) && Initialize(Fresh(true), call, env).1 == Initialized
            && (var p := Initialize(Fresh(true), call, env).0;
                var u := Publish(env, a, [2]);
                && Contract(p.store.trusted, u, env) && Update(p.store, env, true, u).1
                && GetTarget(p.store, env, true, a, true) == Ok([1])
                && GetAcross(p.store.trusted, Update(p.store, env, true, u).0, env, true, a, true) ==
                   Err(InvalidCached))
  {
    hide Update, Contract;
    var s0 := Fresh(true).store;
    PublishStores(s0, env, a, [1]);
    PublishStores(Update(s0, env, true, Publish(env, a, [1])).0, env, a, [2]);
  }

  lemma DownloadOne(s: Store, env: Env, a: string, meta: TargetMeta, u: UpdateChoice, b: bytes)
    requires a !in env.embedded && env.embeddedReadable && !CachedValid(s, env, true, a, meta)
    requires u.download(a) == Some(b) && u.write(a) == Written
    ensures DownloadAll(s, env, true, map[a := meta], [a], u) ==
            (s.(memory := s.memory[a := b], files := s.files[env.path(a) := b]), true)
  {
    assert [a][1..] == [];
  }

  // ----- what becomes of a target whose download failed

  // Neither layer holds valid bytes for this content of n, and no metadata knows n with other content.
  predicate Missing(p: Process, env: Env, n: string, meta: TargetMeta) {
    && OnlyThis(p.store.trusted, n, meta) && OnlyThis(p.store.db, n, meta)
    && (n in p.store.memory ==> !ValidTarget(p.store.memory[n], meta, env))
    && (env.path(n) in p.store.files ==> !ValidTarget(p.store.files[env.path(n)], meta, env))
  }

  predicate OnlyThis(targets: Option<Targets>, n: string, meta: TargetMeta) {
    targets.Some? && n in targets.value ==> SameFile(targets.value[n], meta)
  }

  // A step of this client that does not report n as changed. If part of it fails, the metadata it leaves
  // behind does not know n with other content either.
  predicate SilentAbout(e: Event, n: string, meta: TargetMeta, names: set<string>) {
    match e
    case InitEvent(c) =>
      && (match c.update.update
          case Updated(targets, changed) => n !in changed && targets.Keys <= names
          case UpdateFailed(left) => OnlyThis(left, n, meta))
      && (c.update.sync.SyncFailed? ==> OnlyThis(c.update.sync.left, n, meta))
    case TamperEvent(_, _) => false
    case _ => true
  }

  lemma SetTargetElsewhere(s: Store, env: Env, caching: bool, n: string, b: bytes, w: WriteOutcome, m: string)
    requires n != m && env.path(n) != env.path(m)
    ensures var s' := SetTarget(s, env, caching, n, b, w).0;
            Lookup(s'.memory, m) == Lookup(s.memory, m) && Lookup(s'.files, env.path(m)) == Lookup(s.files, env.path(m))
  {
  }

  lemma {:induction false} DownloadsElsewhere(s: Store, env: Env, caching: bool, targets: Targets, order: seq<string>,
                                              u: UpdateChoice,
                                              m: string)
    requires forall i :: 0 <= i < |order| ==> order[i] in targets && order[i] != m && env.path(order[i]) != env.path(m)
    ensures var s' := DownloadAll(s, env, caching, targets, order, u).0;
            Lookup(s'.memory, m) == Lookup(s.memory, m) && Lookup(s'.files, env.path(m)) == Lookup(s.files, env.path(m))
    decreases |order|
  {
    hide SetTarget, Cached;
    if order == [] {
    } else {
      var n := order[0];
      var b := EmbeddedBytes(n, targets[n], env);
      SetTargetElsewhere(s, env, caching, n, b, u.write(n), m);
      if u.download(n).Some? {
        SetTargetElsewhere(s, env, caching, n, u.download(n).value, u.write(n), m);
      }
      var s1 := MaybeDownload(s, env, caching, n, targets[n], u.download(n), u.write(n)).0;
      DownloadsElsewhere(s1, env, caching, targets, order[1..], u, m);
    }
  }

  lemma UpdateStaysMissing(p: Process, u: UpdateChoice, env: Env, names: set<string>, n: string, meta: TargetMeta)
    requires DistinctPaths(env.path, names) && n in names && Missing(p, env, n, meta)
    requires Contract(p.store.trusted, u, env)
    requires u.update.Updated? ==> n !in u.update.changed && u.update.targets.Keys <= names
    requires u.update.UpdateFailed? ==> OnlyThis(u.update.left, n, meta)
    requires u.sync.SyncFailed? ==> OnlyThis(u.sync.left, n, meta)
    ensures Missing(p.(store := Update(p.store, env, p.caching, u).0), env, n, meta)
  {
    hide DistinctPaths;
    var (s1, ok) := UpdateMeta(p.store, p.caching, u);
    if ok {
      forall i | 0 <= i < |u.order|
        ensures u.order[i] in u.update.targets && u.order[i] != n && env.path(u.order[i]) != env.path(n)
      {
        DistinctNames(env, names, u.order[i], n);
      }
      DownloadsElsewhere(s1, env, p.caching, u.update.targets, u.order, u, n);
      DownloadKeepsTrusted(s1, env, p.caching, u);
    }
  }

  lemma DistinctNames(env: Env, names: set<string>, a: string, b: string)
    requires DistinctPaths(env.path, names) && a in names && b in names && a != b
    ensures env.path(a) != env.path(b)
  {
  }

  lemma NextStaysMissing(p: Process, e: Event, env: Env, names: set<string>, n: string, meta: TargetMeta)
    requires DistinctPaths(env.path, names) && n in names && Missing(p, env, n, meta)
    requires !p.built ==> p.store.memory == map[]
    requires LawfulEvent(p, e, env) && SilentAbout(e, n, meta, names)
    ensures Missing(Next(p, e, env), env, n, meta)
    ensures !Next(p, e, env).built ==> Next(p, e, env).store.memory == map[]
  {
    if e.InitEvent? {
      hide Update, Contract;
      var p1 := Build(p, e.call.buildError);
      assert Missing(p1, env, n, meta);
      if UpdateNeeded(p1, e.call) {
        UpdateStaysMissing(p1, e.call.update, env, names, n, meta);
      }
    }
  }

  // Whatever else happens, restarts and forced updates included.
  lemma {:induction false} StaysMissing(p: Process, events: seq<Event>, env: Env, names: set<string>, n: string,
                                        meta: TargetMeta)
    requires DistinctPaths(env.path, names) && n in names && Missing(p, env, n, meta)
    requires !p.built ==> p.store.memory == map[]
    requires LawfulRun(p, events, env) && forall i :: 0 <= i < |events| ==> SilentAbout(events[i], n, meta, names)
    ensures Missing(After(p, events, env), env, n, meta)
    decreases |events|
  {
    hide Missing, Next, LawfulEvent, SilentAbout;
    if events == [] {
    } else {
      NextStaysMissing(p, events[0], env, names, n, meta);
      StaysMissing(Next(p, events[0], env), events[1..], env, names, n, meta);
    }
  }

  // The update's metadata is in place and k targets are done, but nothing is obtained for the next one.
  predicate ObtainsNothing(p: Process, u: UpdateChoice, k: nat, env: Env)
    requires Contract(p.store.trusted, u, env)
  {
    && u.update.Updated? && k < |u.order| && UpdateMeta(p.store, p.caching, u).1
    && (assert forall i :: 0 <= i < |u.order| ==> u.order[i] in u.update.changed;
        var n, (s, ok) := u.order[k],
                          DownloadAll(UpdateMeta(p.store, p.caching, u).0, env, p.caching, u.update.targets,
                                      u.order[..k], u);
        && ok
        && !CachedValid(s, env, p.caching, n, u.update.targets[n])
        && (!env.embeddedReadable || (EmbeddedBytes(n, u.update.targets[n], env) == [] && u.download(n).None?)))
  }

  lemma {:induction false} DownloadAllSplit(s: Store, env: Env, caching: bool, targets: Targets, order: seq<string>,
                                            u: UpdateChoice, k: nat)
    requires forall i :: 0 <= i < |order| ==> order[i] in targets
    requires k <= |order| && DownloadAll(s, env, caching, targets, order[..k], u).1
    ensures DownloadAll(s, env, caching, targets, order, u) ==
            DownloadAll(DownloadAll(s, env, caching, targets, order[..k], u).0, env, caching, targets, order[k..], u)
    decreases |order|
  {
    hide MaybeDownload;
    if k == 0 {
      assert order[..k] == [] && order[k..] == order;
    } else {
      var n := order[0];
      var s1 := MaybeDownload(s, env, caching, n, targets[n], u.download(n), u.write(n)).0;
      assert order[..k][0] == n && order[..k][1..] == order[1..][..k - 1] && order[k..] == order[1..][k - 1..];
      DownloadAllSplit(s1, env, caching, targets, order[1..], u, k - 1);
    }
  }

  lemma FailedDownloadStops(p: Process, u: UpdateChoice, k: nat, env: Env)
    requires Contract(p.store.trusted, u, env) && ObtainsNothing(p, u, k, env)
    ensures forall i :: 0 <= i < |u.order| ==> u.order[i] in u.update.targets
    ensures Update(p.store, env, p.caching, u) ==
            (DownloadAll(UpdateMeta(p.store, p.caching, u).0, env, p.caching, u.update.targets, u.order[..k], u).0,
             false)
  {
    hide Cached;
    var n, targets := u.order[k], u.update.targets;
    var s1 := UpdateMeta(p.store, p.caching, u).0;
    assert forall i :: 0 <= i < |u.order| ==> u.order[i] in u.update.changed;
    var s := DownloadAll(s1, env, p.caching, targets, u.order[..k], u).0;
    DownloadAllSplit(s1, env, p.caching, targets, u.order, u, k);
    assert u.order[k..][0] == n;
    assert MaybeDownload(s, env, p.caching, n, targets[n], u.download(n), u.write(n)) == (s, false);
  }

  lemma CoherentMisses(s: Store, env: Env, n: string, meta: TargetMeta, names: set<string>)
    requires Coherent(s, env, true, names) && !CachedValid(s, env, true, n, meta)
    ensures n in s.memory ==> !ValidTarget(s.memory[n], meta, env)
    ensures env.path(n) in s.files ==> !ValidTarget(s.files[env.path(n)], meta, env)
  {
  }

  lemma FailedDownloadMisses(p: Process, u: UpdateChoice, k: nat, env: Env, names: set<string>)
    requires DistinctPaths(env.path, names) && Invariant(p, env, names) && p.built
    requires Contract(p.store.trusted, u, env) && ObtainsNothing(p, u, k, env) && u.update.targets.Keys <= names
    ensures !Update(p.store, env, p.caching, u).1
    ensures p.caching ==>
              Missing(p.(store := Update(p.store, env, p.caching, u).0), env, u.order[k], u.update.targets[u.order[k]])
  {
    hide DistinctPaths, DownloadAll, Update, CachedValid, ValidTarget;
    FailedDownloadStops(p, u, k, env);
    if p.caching {
      var s1 := UpdateMeta(p.store, p.caching, u).0;
      DownloadAllGood(s1, env, p.caching, u.update.targets, u.order[..k], u, names);
      var s := DownloadAll(s1, env, p.caching, u.update.targets, u.order[..k], u).0;
      CoherentMisses(s, env, u.order[k], u.update.targets[u.order[k]], names);
    }
  }

  // From an empty disk, after any run without failed update steps: a caching client whose update obtains
  // nothing for a target does not serve it again, over any later steps, until one reports it as changed.
  lemma FailedDownloadIsNeverRepaired(events: seq<Event>, call: InitCall, k: nat, later: seq<Event>, env: Env,
                                      names: set<string>,
                                      metaOk: bool)
    requires DistinctPaths(env.path, names)
    requires LawfulRun(Fresh(true), events, env) && GoodRun(Fresh(true), events, env, names)
    requires var p := After(Fresh(true), events, env); p.caching && LawfulCall(p, call, env)
    requires var b := Build(After(Fresh(true), events, env), call.buildError);
             UpdateNeeded(b, call) && ObtainsNothing(b, call.update, k, env) && call.update.update.targets.Keys <= names
    requires var q := Initialize(After(Fresh(true), events, env), call, env).0;
             LawfulRun(q, later, env)
    requires var n := call.update.order[k];
             forall i :: 0 <= i < |later| ==> SilentAbout(later[i], n, call.update.update.targets[n], names)
    ensures Initialize(After(Fresh(true), events, env), call, env).1 == UpdateStepFailed
    ensures var end := After(Initialize(After(Fresh(true), events, env), call, env).0, later, env);
            GetTarget(end.store, env, end.caching, call.update.order[k], metaOk).Err?
  {
    var p := After(Fresh(true), events, env);
    var b, q := Build(p, call.buildError), Initialize(p, call, env).0;
    var n := call.update.order[k];
    var meta := call.update.update.targets[n];
    GoodRunKeepsInvariant(Fresh(true), events, env, names);
    assert Invariant(b, env, names);
    FailedDownloadMisses(b, call.update, k, env, names);
    StaysMissing(q, later, env, names, n, meta);
  }

  // ----- the same on one literal run

  // The download of a new target fails after its metadata was stored. The next initialization succeeds
  // without an update, and so does a forced one, which is told of no change; the target stays missing.
  lemma FailedDownloadExample(env: Env, a: string, meta: TargetMeta, written: string -> WriteOutcome)
    requires env.embedded == map[]
    ensures var targets := map[a := meta];
            var failing := InitCall(true, false, None, true,
                                    UpdateChoice(Updated(targets, {a}), Synced, [a], n => None, written));
            var quiet := InitCall(false, false, None, true,
                                  UpdateChoice(UpdateFailed(None), Synced, [], n => None, written));
            var forced := InitCall(true, false, None, true,
                                   UpdateChoice(Updated(targets, {}), Synced, [], n => None, written));
            var p0 := Fresh(true);
            && LawfulCall(p0, failing, env)
            && Initialize(p0, failing, env).1 == UpdateStepFailed
            && (var p1 := Initialize(p0, failing, env).0;
                && LawfulCall(p1, quiet, env)
                && Initialize(p1, quiet, env) == (p1, Initialized)
                && LawfulCall(p1, forced, env)
                && Initialize(p1, forced, env) == (p1, Initialized)
                && p1.store.trusted == Some(targets)
                && GetTarget(p1.store, env, true, a, true) == Err(NotCached))
  {
    var targets := map[a := meta];
    var u := UpdateChoice(Updated(targets, {a}), Synced, [a], n => None, written);
    var s := Store(Some(targets), map[], Some(targets), map[]);
    assert !MaybeDownload(s, env, true, a, meta, None, written(a)).1;
    assert DownloadAll(s, env, true, targets, [a], u) == (s, false);
  }
}
