/** pkg/tuf/client.go, initializeTUF: every interleaving of the callers in `TufSingleton` amounts to the
    calls in `TufClient`, one after the other in the order in which they return. */
module TufLinear {
  import opened Wrappers
  import opened TufCache
  import opened TufClient
  import S = TufSingleton

  // What each caller finds, said as one call of the sequential model.
  type Calls = S.Tid -> InitCall

  function Kind(e: S.BuildError): InitError {
    match e.part
    case OpenLocal => LocalStoreError
    case OpenRemote => RemoteStoreError
    case ReadStored => MetaError
    case FindRoot => RootError
    case _ => ClientInitError
  }

  function KindOf(e: Option<S.BuildError>): Option<InitError> {
    if e.Some? then Some(Kind(e.value)) else None
  }

  predicate Matches(s: S.State, p: Process) {
    && p.built == s.singleton.Some?
    && p.error == KindOf(s.error)
  }

  predicate SameResult(o: S.Outcome, r: InitResult) {
    match o
    case Returned(_) => r == Initialized
    case Failed(ConstructionFailed(e)) => r == ConstructionFailed(Kind(e))
    case Failed(MetaUnreadable(_)) => r == MetaReadFailed
    case Failed(UpdateFailed(_)) => r == UpdateStepFailed
    case Panicked => false
  }

  // What the caller that holds the lock has done so far of its call; p is the process before that call.
  predicate Underway(s: S.State, pc: S.PC, p: Process, c: InitCall) {
    match pc
    case Building(_, _, _) => Matches(s, p) && !p.built && p.error.None?
    case Checking => Matches(s, Build(p, c.buildError))
    case Reading => Matches(s, Build(p, c.buildError)) && s.error.None?
    case Updating => Matches(s, Build(p, c.buildError)) && s.error.None? && UpdateNeeded(Build(p, c.buildError), c)
    case _ => false
  }

  predicate Simulates(s: S.State, p: Process, calls: Calls) {
    if s.lock.None? then Matches(s, p)
    else s.lock.value in s.threads && Underway(s, s.threads[s.lock.value].pc, p, calls(s.lock.value))
  }

  // The environment answers a step of the machine as it answers the sequential call.
  predicate Agrees(s: S.State, a: S.Action, p: Process, c: InitCall, env: Env)
    requires S.Enabled(s, a)
  {
    && (!a.Begin? ==> LawfulCall(p, c, env))
    && match a
       case Build(t, answer) =>
         var pc := s.threads[t].pc;
         (match S.BuildPart(pc.part, pc.draft, pc.root, answer)
          case Continue(_, _, _) => true
          case Abort(e) => c.buildError == Some(Kind(e))
          case Publish(_) => c.buildError == None)
       case ReadMeta(t, answer, upToDate) =>
         var b := Build(p, c.buildError);
         && c.metaReadable == answer.Works?
         && upToDate == (b.store.trusted.Some? && !c.expired)
         && c.forceUpdate == s.threads[t].args.forceUpdate
       case Refresh(_, answer) =>
         var b := Build(p, c.buildError);
         UpdateNeeded(b, c) ==> answer.Works? == Update(b.store, env, b.caching, c.update).1
       case _ => true
  }

  predicate Returns(s: S.State, a: S.Action)
    requires S.Enabled(s, a)
  {
    !a.Begin? && S.Ended(S.Step(s, a), a.tid)
  }

  // The process after a step: it moves when a call returns.
  function Advance(s: S.State, a: S.Action, p: Process, calls: Calls, env: Env): Process
    requires S.Enabled(s, a) && Agrees(s, a, p, calls(a.tid), env)
  {
    if Returns(s, a) then Initialize(p, calls(a.tid), env).0 else p
  }

  lemma StepSimulates(s: S.State, a: S.Action, p: Process, calls: Calls, env: Env)
    requires S.Invariant(s) && S.Enabled(s, a) && Simulates(s, p, calls) && Agrees(s, a, p, calls(a.tid), env)
    ensures Simulates(S.Step(s, a), Advance(s, a, p, calls, env), calls)
    ensures Returns(s, a) ==> SameResult(S.OutcomeOf(S.Step(s, a), a.tid), Initialize(p, calls(a.tid), env).1)
  {
    hide Update, Contract, S.DraftFits, S.CompleteFrom, S.BuildPart;
  }

  // ----- whole runs

  // The environment agrees in every step of the run.
  predicate AgreesThroughout(s: S.State, actions: seq<S.Action>, p: Process, calls: Calls, env: Env)
    requires S.IsRun(s, actions)
    decreases |actions|
  {
    actions == [] ||
    (Agrees(s, actions[0], p, calls(actions[0].tid), env)
     && AgreesThroughout(S.Step(s, actions[0]), actions[1..], Advance(s, actions[0], p, calls, env), calls, env))
  }

  // The callers in the order in which their calls return.
  function ReturnOrder(s: S.State, actions: seq<S.Action>): seq<S.Tid>
    requires S.IsRun(s, actions)
    decreases |actions|
  {
    if actions == [] then []
    else (if Returns(s, actions[0]) then [actions[0].tid] else []) + ReturnOrder(S.Step(s, actions[0]), actions[1..])
  }

  // Their calls one after the other: each is lawful, and each has the result its caller got.
  predicate SequentialRun(p: Process, order: seq<S.Tid>, calls: Calls, env: Env, end: S.State)
    decreases |order|
  {
    order == [] ||
    (&& LawfulCall(p, calls(order[0]), env)
     && S.Ended(end, order[0])
     && SameResult(S.OutcomeOf(end, order[0]), Initialize(p, calls(order[0]), env).1)
     && SequentialRun(Initialize(p, calls(order[0]), env).0, order[1..], calls, env, end))
  }

  lemma {:induction false} RunSimulates(s: S.State, actions: seq<S.Action>, p: Process, calls: Calls, env: Env)
    requires S.Invariant(s) && S.IsRun(s, actions) && Simulates(s, p, calls)
    requires AgreesThroughout(s, actions, p, calls, env)
    ensures SequentialRun(p, ReturnOrder(s, actions), calls, env, S.After(s, actions))
    decreases |actions|
  {
    hide S.Invariant, S.Step, S.Enabled, Initialize, Agrees, Simulates, SameResult, LawfulCall;
    if actions == [] {
    } else {
      var a := actions[0];
      var s1, p1 := S.Step(s, a), Advance(s, a, p, calls, env);
      S.StepKeepsInvariant(s, a);
      StepSimulates(s, a, p, calls, env);
      RunSimulates(s1, actions[1..], p1, calls, env);
      if Returns(s, a) {
        S.RunKeeps(s1, actions[1..]);
        AgreesIsLawful(s, a, p, calls(a.tid), env);
        assert ReturnOrder(s, actions)[1..] == ReturnOrder(s1, actions[1..]);
      } else {
        assert ReturnOrder(s, actions) == ReturnOrder(s1, actions[1..]);
      }
    }
  }

  lemma AgreesIsLawful(s: S.State, a: S.Action, p: Process, c: InitCall, env: Env)
    requires S.Enabled(s, a) && Agrees(s, a, p, c, env) && !a.Begin?
    ensures LawfulCall(p, c, env)
  {
  }

  lemma {:induction false} EveryReturnIsListed(s: S.State, actions: seq<S.Action>, t: S.Tid)
    requires S.Invariant(s) && S.IsRun(s, actions)
    ensures t in ReturnOrder(s, actions) <==> S.Ended(S.After(s, actions), t) && !S.Ended(s, t)
    decreases |actions|
  {
    hide S.Invariant, S.Enabled, S.DraftFits, S.CompleteFrom, S.BuildPart;
    if actions == [] {
    } else {
      var s1 := S.Step(s, actions[0]);
      S.StepKeepsInvariant(s, actions[0]);
      S.StepExtends(s, actions[0]);
      EveryReturnIsListed(s1, actions[1..], t);
      S.RunKeeps(s1, actions[1..]);
      OthersDoNotReturn(s, actions[0], t);
    }
  }

  lemma OthersDoNotReturn(s: S.State, a: S.Action, t: S.Tid)
    requires S.Enabled(s, a)
    ensures S.Ended(S.Step(s, a), t) && !S.Ended(s, t) ==> Returns(s, a) && a.tid == t
    ensures Returns(s, a) ==> !S.Ended(s, a.tid)
  {
    hide S.BuildPart;
  }

  // From the start of a process, every interleaving gives every caller the result of its call in one
  // sequential order of all calls that returned.
  lemma Linearizable(actions: seq<S.Action>, p: Process, calls: Calls, env: Env)
    requires S.IsRun(S.INITIAL, actions) && !p.built && p.error.None?
    requires AgreesThroughout(S.INITIAL, actions, p, calls, env)
    ensures SequentialRun(p, ReturnOrder(S.INITIAL, actions), calls, env, S.After(S.INITIAL, actions))
    ensures forall t :: t in ReturnOrder(S.INITIAL, actions) <==> S.Ended(S.After(S.INITIAL, actions), t)
  {
    RunSimulates(S.INITIAL, actions, p, calls, env);
    forall t: S.Tid
      ensures t in ReturnOrder(S.INITIAL, actions) <==> S.Ended(S.After(S.INITIAL, actions), t)
    {
      EveryReturnIsListed(S.INITIAL, actions, t);
    }
  }

  // ----- every run has such calls

  const NO_TARGETS: Targets := map[]

  // Updates of a repository without targets, which work or fail as the trace says.
  const WORKING := UpdateChoice(Updated(NO_TARGETS, {}), Synced, [], n => None, n => Written)
  const FAILING := UpdateChoice(UpdateFailed(Some(NO_TARGETS)), Synced, [], n => None, n => Written)

  // A process that starts on a disk with the metadata of such a repository.
  const START := Process(true, false, None, Store(None, map[], Some(NO_TARGETS), map[]))

  predicate Steady(p: Process) {
    p.caching && p.store.db == Some(NO_TARGETS) && (p.built ==> p.store.trusted == Some(NO_TARGETS))
  }

  function FirstRead(actions: seq<S.Action>, t: S.Tid): Option<S.Action> {
    if actions == [] then None
    else if actions[0].ReadMeta? && actions[0].tid == t then Some(actions[0])
    else FirstRead(actions[1..], t)
  }

  function FirstRefresh(actions: seq<S.Action>, t: S.Tid): Option<S.Action> {
    if actions == [] then None
    else if actions[0].Refresh? && actions[0].tid == t then Some(actions[0])
    else FirstRefresh(actions[1..], t)
  }

  // A sequential call that finds what the caller finds in a run that ends so.
  ghost predicate Fits(c: InitCall, end: S.State, actions: seq<S.Action>, t: S.Tid) {
    && (t in end.threads ==> c.forceUpdate == end.threads[t].args.forceUpdate)
    && c.buildError == KindOf(end.error)
    && c.update == (if c.update.update.Updated? then WORKING else FAILING)
    && (var r := FirstRead(actions, t);
        r.Some? && r.value.ReadMeta? ==> c.metaReadable == r.value.answer.Works? && c.expired == !r.value.upToDate)
    && (var r := FirstRefresh(actions, t);
        r.Some? && r.value.Refresh? ==> c.update.update.Updated? == r.value.answer.Works?)
  }

  function CallOf(end: S.State, actions: seq<S.Action>, t: S.Tid): (c: InitCall)
    ensures Fits(c, end, actions, t)
  {
    var read, refresh := FirstRead(actions, t), FirstRefresh(actions, t);
    InitCall(
      t in end.threads && end.threads[t].args.forceUpdate,
      read.Some? && read.value.ReadMeta? && !read.value.upToDate,
      KindOf(end.error),
      read.Some? && read.value.ReadMeta? ==> read.value.answer.Works?,
      if refresh.Some? && refresh.value.Refresh? && refresh.value.answer.Fails? then FAILING else WORKING)
  }

  lemma {:induction false} ReadsOnce(s: S.State, actions: seq<S.Action>, t: S.Tid)
    requires S.IsRun(s, actions) && t in s.threads
    ensures s.threads[t].pc.Updating? || s.threads[t].pc.Finished? ==> FirstRead(actions, t) == None
    ensures s.threads[t].pc.Finished? ==> FirstRefresh(actions, t) == None
    decreases |actions|
  {
    hide S.BuildPart;
    if actions == [] {
    } else {
      ReadsOnce(S.Step(s, actions[0]), actions[1..], t);
    }
  }

  lemma SteadyUpdate(s: Store, env: Env, u: UpdateChoice)
    requires s.trusted == Some(NO_TARGETS) && s.db == Some(NO_TARGETS) && u in {WORKING, FAILING}
    ensures Contract(s.trusted, u, env) && Update(s, env, true, u) == (s, u == WORKING)
  {
    assert WORKING.update.Updated? && FAILING.update.UpdateFailed?;
  }

  lemma SteadyCall(p: Process, c: InitCall, env: Env)
    requires Steady(p) && c.update in {WORKING, FAILING}
    ensures LawfulCall(p, c, env)
    ensures Steady(Initialize(p, c, env).0)
    ensures var b := Build(p, c.buildError);
            UpdateNeeded(b, c) ==> Update(b.store, env, b.caching, c.update).1 == (c.update == WORKING)
  {
    hide Update, Contract;
    var b := Build(p, c.buildError);
    if b.built {
      SteadyUpdate(b.store, env, c.update);
    }
  }

  lemma NextAgrees(s: S.State, actions: seq<S.Action>, p: Process, calls: Calls, env: Env)
    requires S.Invariant(s) && actions != [] && S.IsRun(s, actions) && Simulates(s, p, calls) && Steady(p)
    requires Fits(calls(actions[0].tid), S.After(s, actions), actions, actions[0].tid)
    ensures Agrees(s, actions[0], p, calls(actions[0].tid), env)
  {
    hide Update, Contract, S.DraftFits, S.CompleteFrom, S.BuildPart, LawfulCall;
    var a, c, end := actions[0], calls(actions[0].tid), S.After(s, actions);
    S.StepKeepsInvariant(s, a);
    S.StepExtends(s, a);
    S.RunKeeps(S.Step(s, a), actions[1..]);
    S.RunKeeps(s, actions);
    SteadyCall(p, c, env);
    assert WORKING.update.Updated? && FAILING.update.UpdateFailed?;
  }

  lemma StillFits(s: S.State, actions: seq<S.Action>, c: InitCall, t: S.Tid)
    requires actions != [] && S.IsRun(s, actions) && Fits(c, S.After(s, actions), actions, t)
    ensures Fits(c, S.After(s, actions), actions[1..], t)
  {
    hide S.BuildPart;
    var a, s1 := actions[0], S.Step(s, actions[0]);
    if !a.Begin? && a.tid == t {
      ReadsOnce(s1, actions[1..], t);
    }
  }

  lemma {:induction false} RunAgrees(s: S.State, actions: seq<S.Action>, p: Process, calls: Calls, env: Env)
    requires S.Invariant(s) && S.IsRun(s, actions) && Simulates(s, p, calls) && Steady(p)
    requires forall t: S.Tid :: Fits(calls(t), S.After(s, actions), actions, t)
    ensures AgreesThroughout(s, actions, p, calls, env)
    decreases |actions|
  {
    hide S.Invariant, S.Step, S.Enabled, Initialize, Agrees, Simulates, SameResult, LawfulCall, Fits, Steady;
    if actions == [] {
    } else {
      var a := actions[0];
      NextAgrees(s, actions, p, calls, env);
      S.StepKeepsInvariant(s, a);
      StepSimulates(s, a, p, calls, env);
      AdvanceIsSteady(s, actions, p, calls, env);
      forall t: S.Tid
        ensures Fits(calls(t), S.After(s, actions), actions[1..], t)
      {
        StillFits(s, actions, calls(t), t);
      }
      RunAgrees(S.Step(s, a), actions[1..], Advance(s, a, p, calls, env), calls, env);
    }
  }

  lemma AdvanceIsSteady(s: S.State, actions: seq<S.Action>, p: Process, calls: Calls, env: Env)
    requires actions != [] && S.IsRun(s, actions) && Steady(p)
    requires Fits(calls(actions[0].tid), S.After(s, actions), actions, actions[0].tid)
    requires Agrees(s, actions[0], p, calls(actions[0].tid), env)
    ensures Steady(Advance(s, actions[0], p, calls, env))
  {
    hide S.Step, S.Enabled, Initialize, Agrees, Steady, S.IsRun, S.After;
    SteadyCall(p, calls(actions[0].tid), env);
  }

  // No interleaving is without them: every run at all is linearized by the calls it itself determines.
  lemma EveryRunIsLinearizable(actions: seq<S.Action>, env: Env)
    requires S.IsRun(S.INITIAL, actions)
    ensures exists calls: Calls ::
              && AgreesThroughout(S.INITIAL, actions, START, calls, env)
              && SequentialRun(START, ReturnOrder(S.INITIAL, actions), calls, env, S.After(S.INITIAL, actions))
    ensures forall t :: t in ReturnOrder(S.INITIAL, actions) <==> S.Ended(S.After(S.INITIAL, actions), t)
  {
    var end := S.After(S.INITIAL, actions);
    var calls: Calls := (t: S.Tid) => CallOf(end, actions, t);
    RunAgrees(S.INITIAL, actions, START, calls, env);
    Linearizable(actions, START, calls, env);
  }
}
