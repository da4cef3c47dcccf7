/** pkg/tuf/client.go, initializeTUF: concurrent callers in one process as a state machine. Every step of
    every caller is an action of its own, in any order the lock admits; each fallible call inside a step is
    answered by the environment. */
module TufSingleton {
  import opened Wrappers
  import opened Bytes

  type Tid = nat

  // What a caller passes: embedded is root.json of the embedded repository, or why it cannot be read.
  datatype Args = Args(mirror: string, root: Option<bytes>, embedded: Result<bytes, string>, forceUpdate: bool)

  // The local metadata store, of which only its root.json matters here.
  datatype Local = Local(root: Option<bytes>)

  // The TUF object, whose fields are set one after the other.
  datatype Client = Client(
    mirror: string,
    embedded: Result<bytes, string>,
    targets: bool,
    local: Option<Local>,
    remote: Option<string>,
    client: Option<(Local, string)>,
    trustedRoot: Option<bytes>)

  datatype Part = MakeTargets | OpenLocal | OpenRemote | MakeClient | ReadStored | FindRoot | InitClient

  datatype BuildError = BuildError(part: Part, reason: string)

  datatype Failure =
    | ConstructionFailed(error: BuildError)
    | MetaUnreadable(reason: string)
    | UpdateFailed(reason: string)

  datatype Outcome = Returned(client: Client) | Failed(failure: Failure) | Panicked

  datatype PC =
    | Waiting
    | Building(part: Part, draft: Client, root: Option<bytes>)
    | Checking
    | Reading
    | Updating
    | Finished(outcome: Outcome)

  datatype Thread = Thread(args: Args, pc: PC)

  // initMu, sync.Once with the caller that ran its function, singletonTUF, singletonTUFErr, and the callers.
  datatype State = State(
    lock: Option<Tid>,
    done: bool,
    builder: Option<Tid>,
    singleton: Option<Client>,
    error: Option<BuildError>,
    threads: map<Tid, Thread>)

  // The environment's answer to a call that may fail; found is the root.json of an opened local store.
  datatype Answer = Works(found: Option<bytes>) | Fails(reason: string)

  datatype Action =
    | Begin(tid: Tid, args: Args)
    | Acquire(tid: Tid)
    | Build(tid: Tid, answer: Answer)
    | Check(tid: Tid)
    | ReadMeta(tid: Tid, answer: Answer, upToDate: bool)
    | Refresh(tid: Tid, answer: Answer)

  const INITIAL := State(None, false, None, None, None, map[])

  const DEFAULT_REMOTE_ROOT := "https://tuf-repo-cdn.sigstore.dev"

  // Mirror: the retired names of the default mirror stand for its current one.
  function Endpoint(mirror: string): string {
    if mirror in ["sigstore-tuf-root",
                  "https://sigstore-tuf-root.storage.googleapis.com",
                  "https://storage.googleapis.com/sigstore-tuf-root"]
    then DEFAULT_REMOTE_ROOT else mirror
  }

  // ----- one step of construction

  datatype Progress =
    | Continue(part: Part, draft: Client, root: Option<bytes>)
    | Abort(error: BuildError)
    | Publish(client: Client)

  function BuildPart(part: Part, draft: Client, root: Option<bytes>, a: Answer): Progress {
    match part
    case MakeTargets => Continue(OpenLocal, draft.(targets := true), root)
    case OpenLocal =>
      if a.Fails? then Abort(BuildError(OpenLocal, a.reason))
      else Continue(OpenRemote, draft.(local := Some(Local(a.found))), root)
    case OpenRemote =>
      if a.Fails? then Abort(BuildError(OpenRemote, a.reason))
      else Continue(MakeClient, draft.(remote := Some(Endpoint(draft.mirror))), root)
    case MakeClient =>
      var client :=
        if draft.local.Some? && draft.remote.Some? then Some((draft.local.value, draft.remote.value)) else None;
      Continue(ReadStored, draft.(client := client), root)
    case ReadStored =>
      if a.Fails? then Abort(BuildError(ReadStored, a.reason)) else Continue(FindRoot, draft, root)
    case FindRoot =>
      if root.Some? then Continue(InitClient, draft, root)
      else if draft.local.Some? && draft.local.value.root.Some? then Continue(InitClient, draft, draft.local.value.root)
      else (match draft.embedded
            case Ok(b) => Continue(InitClient, draft, Some(b))
            case Err(reason) => Abort(BuildError(FindRoot, reason)))
    case InitClient =>
      if a.Fails? then Abort(BuildError(InitClient, a.reason)) else Publish(draft.(trustedRoot := root))
  }

  function EmptyDraft(args: Args): Client {
    Client(args.mirror, args.embedded, false, None, None, None, None)
  }

  // ----- the machine

  predicate Enabled(s: State, a: Action) {
    if a.Begin? then a.tid !in s.threads
    else
      && a.tid in s.threads
      && match a
         case Acquire(t) => s.threads[t].pc.Waiting? && s.lock.None?
         case Build(t, _) => s.threads[t].pc.Building?
         case Check(t) => s.threads[t].pc.Checking?
         case ReadMeta(t, _, _) => s.threads[t].pc.Reading?
         case Refresh(t, _) => s.threads[t].pc.Updating?
  }

  function Move(s: State, t: Tid, pc: PC): State
    requires t in s.threads
  {
    s.(threads := s.threads[t := s.threads[t].(pc := pc)])
  }

  // Returning releases the lock.
  function Finish(s: State, t: Tid, outcome: Outcome): State
    requires t in s.threads
  {
    Move(s, t, Finished(outcome)).(lock := None)
  }

  // Using the singleton when it is nil is a panic.
  function Singleton(s: State): Outcome {
    if s.singleton.Some? then Returned(s.singleton.value) else Panicked
  }

  function Step(s: State, a: Action): State
    requires Enabled(s, a)
  {
    match a
    case Begin(t, args) => s.(threads := s.threads[t := Thread(args, Waiting)])
    case Acquire(t) =>
      if s.done then Move(s, t, Checking).(lock := Some(t))
      else
        var args := s.threads[t].args;
        Move(s, t, Building(MakeTargets, EmptyDraft(args), args.root)).(lock := Some(t), builder := Some(t))
    case Build(t, answer) =>
      var pc := s.threads[t].pc;
      (match BuildPart(pc.part, pc.draft, pc.root, answer)
       case Continue(part, draft, root) => Move(s, t, Building(part, draft, root))
       case Abort(e) => Move(s, t, Checking).(done := true, error := Some(e))
       case Publish(c) => Move(s, t, Checking).(done := true, singleton := Some(c)))
    case Check(t) =>
      if s.error.Some? then Finish(s, t, Failed(ConstructionFailed(s.error.value))) else Move(s, t, Reading)
    case ReadMeta(t, answer, upToDate) =>
      if s.singleton.None? then Finish(s, t, Panicked)
      else if answer.Fails? then Finish(s, t, Failed(MetaUnreadable(answer.reason)))
      else if upToDate && !s.threads[t].args.forceUpdate then Finish(s, t, Singleton(s))
      else Move(s, t, Updating)
    case Refresh(t, answer) =>
      if s.singleton.None? then Finish(s, t, Panicked)
      else if answer.Fails? then Finish(s, t, Failed(UpdateFailed(answer.reason)))
      else Finish(s, t, Singleton(s))
  }

  predicate IsRun(s: State, actions: seq<Action>)
    decreases |actions|
  {
    actions == [] || (Enabled(s, actions[0]) && IsRun(Step(s, actions[0]), actions[1..]))
  }

  function After(s: State, actions: seq<Action>): State
    requires IsRun(s, actions)
    decreases |actions|
  {
    if actions == [] then s else After(Step(s, actions[0]), actions[1..])
  }

  // ----- what the trace of a run says, independently of the state

  // The first caller to get the lock.
  function FirstToLock(actions: seq<Action>): Option<Tid> {
    if actions == [] then None
    else if actions[0].Acquire? then Some(actions[0].tid)
    else FirstToLock(actions[1..])
  }

  // What a caller passed in.
  function ArgsOf(actions: seq<Action>, t: Tid): Option<Args> {
    if actions == [] then None
    else if actions[0].Begin? && actions[0].tid == t then Some(actions[0].args)
    else ArgsOf(actions[1..], t)
  }

  // Fully built, from these arguments: their mirror throughout, and their root, else the stored one, else
  // the embedded one.
  predicate CompleteFrom(c: Client, args: Args) {
    var retired := || args.mirror == "sigstore-tuf-root"
                   || args.mirror == "https://sigstore-tuf-root.storage.googleapis.com"
                   || args.mirror == "https://storage.googleapis.com/sigstore-tuf-root";
    var remote := if retired then "https://tuf-repo-cdn.sigstore.dev" else args.mirror;
    && c.mirror == args.mirror && c.embedded == args.embedded && c.targets
    && c.local.Some? && c.remote == Some(remote) && c.client == Some((c.local.value, remote))
    && c.trustedRoot.Some?
    && c.trustedRoot == (if args.root.Some? then args.root
                         else if c.local.value.root.Some? then c.local.value.root
                         else if args.embedded.Ok? then Some(args.embedded.value) else None)
  }

  predicate Ended(s: State, t: Tid) {
    t in s.threads && s.threads[t].pc.Finished?
  }

  function OutcomeOf(s: State, t: Tid): Outcome
    requires Ended(s, t)
  {
    s.threads[t].pc.outcome
  }

  // ----- the invariant

  predicate Critical(pc: PC) {
    !pc.Waiting? && !pc.Finished?
  }

  // What is set once this part is next.
  predicate DraftFits(part: Part, d: Client, root: Option<bytes>, args: Args) {
    && d.mirror == args.mirror && d.embedded == args.embedded
    && (part != MakeTargets ==> d.targets)
    && (part.OpenRemote? || part.MakeClient? || part.ReadStored? || part.FindRoot? || part.InitClient? ==>
        d.local.Some?)
    && (part.MakeClient? || part.ReadStored? || part.FindRoot? || part.InitClient? ==>
        d.remote == Some(Endpoint(args.mirror)))
    && (part.ReadStored? || part.FindRoot? || part.InitClient? ==>
        d.client == Some((d.local.value, Endpoint(args.mirror))))
    && (if part.InitClient? then root.Some? && CompleteFrom(d.(trustedRoot := root), args) else root == args.root)
  }

  predicate ThreadFits(s: State, t: Tid, th: Thread) {
    && (Critical(th.pc) ==> s.lock == Some(t))
    && match th.pc
       case Waiting => true
       case Building(part, draft, root) => !s.done && s.builder == Some(t) && DraftFits(part, draft, root, th.args)
       case Checking => s.done
       case Reading => s.singleton.Some?
       case Updating => s.singleton.Some?
       case Finished(Returned(c)) => s.singleton == Some(c)
       case Finished(Failed(ConstructionFailed(e))) => s.error == Some(e)
       case Finished(Failed(_)) => s.singleton.Some?
       case Finished(Panicked) => false
  }

  predicate Invariant(s: State) {
    && (forall t :: t in s.threads ==> ThreadFits(s, t, s.threads[t]))
    && (s.lock.Some? ==> s.lock.value in s.threads && Critical(s.threads[s.lock.value].pc))
    && (s.builder.Some? ==> s.builder.value in s.threads)
    && (s.done ==> s.builder.Some?)
    && (s.builder.Some? && !s.done ==> s.threads[s.builder.value].pc.Building?)
    && (s.done <==> s.singleton.Some? || s.error.Some?)
    && !(s.singleton.Some? && s.error.Some?)
    && (s.singleton.Some? ==> CompleteFrom(s.singleton.value, s.threads[s.builder.value].args))
  }

  lemma BuildPartFits(part: Part, d: Client, root: Option<bytes>, a: Answer, args: Args)
    requires DraftFits(part, d, root, args)
    ensures var p := BuildPart(part, d, root, a);
            && (p.Continue? ==> DraftFits(p.part, p.draft, p.root, args))
            && (p.Publish? ==> CompleteFrom(p.client, args))
  {
  }

  lemma EmptyDraftFits(args: Args)
    ensures DraftFits(MakeTargets, EmptyDraft(args), args.root, args)
  {
  }

  lemma OthersStillFit(s: State, a: Action)
    requires Invariant(s) && Enabled(s, a) && a.Build?
    ensures forall t :: t in s.threads && t != a.tid ==> ThreadFits(Step(s, a), t, s.threads[t])
  {
    hide DraftFits, CompleteFrom, BuildPart;
    forall t | t in s.threads && t != a.tid
      ensures ThreadFits(Step(s, a), t, s.threads[t])
    {
      assert ThreadFits(s, t, s.threads[t]) && !Critical(s.threads[t].pc);
    }
  }

  lemma BuilderStillFits(s: State, a: Action)
    requires Invariant(s) && Enabled(s, a) && a.Build?
    ensures ThreadFits(Step(s, a), a.tid, Step(s, a).threads[a.tid])
  {
    hide DraftFits, CompleteFrom, BuildPart;
    var th := s.threads[a.tid];
    assert ThreadFits(s, a.tid, th);
    BuildPartFits(th.pc.part, th.pc.draft, th.pc.root, a.answer, th.args);
  }

  lemma BuildKeepsInvariant(s: State, a: Action)
    requires Invariant(s) && Enabled(s, a) && a.Build?
    ensures Invariant(Step(s, a))
  {
    hide DraftFits, CompleteFrom, BuildPart, ThreadFits;
    var th := s.threads[a.tid];
    BuilderIsBuilding(s, a.tid);
    BuildPartFits(th.pc.part, th.pc.draft, th.pc.root, a.answer, th.args);
    OthersStillFit(s, a);
    BuilderStillFits(s, a);
  }

  lemma BuilderIsBuilding(s: State, t: Tid)
    requires Invariant(s) && t in s.threads && s.threads[t].pc.Building?
    ensures s.lock == Some(t) && !s.done && s.builder == Some(t)
    ensures DraftFits(s.threads[t].pc.part, s.threads[t].pc.draft, s.threads[t].pc.root, s.threads[t].args)
  {
    hide DraftFits, CompleteFrom;
    assert ThreadFits(s, t, s.threads[t]);
  }

  lemma OtherKeepsInvariant(s: State, a: Action)
    requires Invariant(s) && Enabled(s, a) && !a.Build?
    ensures Invariant(Step(s, a))
  {
    hide DraftFits, CompleteFrom, BuildPart;
    if a.Acquire? {
      EmptyDraftFits(s.threads[a.tid].args);
    }
  }

  lemma StepKeepsInvariant(s: State, a: Action)
    requires Invariant(s) && Enabled(s, a)
    ensures Invariant(Step(s, a))
  {
    hide Invariant, Step, Enabled;
    if a.Build? {
      BuildKeepsInvariant(s, a);
    } else {
      OtherKeepsInvariant(s, a);
    }
  }

  // What one step cannot undo.
  ghost predicate Extends(s: State, s': State) {
    && (forall t :: t in s.threads ==> t in s'.threads && s'.threads[t].args == s.threads[t].args)
    && (forall t :: Ended(s, t) ==> Ended(s', t) && OutcomeOf(s', t) == OutcomeOf(s, t))
    && (s.singleton.Some? ==> s'.singleton == s.singleton)
    && (s.error.Some? ==> s'.error == s.error)
    && (s.builder.Some? ==> s'.builder == s.builder)
  }

  lemma StepExtends(s: State, a: Action)
    requires Invariant(s) && Enabled(s, a)
    ensures Extends(s, Step(s, a))
  {
    hide DraftFits, CompleteFrom, BuildPart;
    assert s.threads.Keys <= Step(s, a).threads.Keys;
    assert forall t :: t in s.threads && t != a.tid ==> Step(s, a).threads[t] == s.threads[t];
  }

  lemma {:induction false} RunKeeps(s: State, actions: seq<Action>)
    requires Invariant(s) && IsRun(s, actions)
    ensures Invariant(After(s, actions)) && Extends(s, After(s, actions))
    decreases |actions|
  {
    hide Invariant, Step, Enabled;
    if actions == [] {
    } else {
      StepKeepsInvariant(s, actions[0]);
      StepExtends(s, actions[0]);
      RunKeeps(Step(s, actions[0]), actions[1..]);
    }
  }

  lemma {:induction false} RunsConcat(s: State, before: seq<Action>, after: seq<Action>)
    requires IsRun(s, before + after)
    ensures IsRun(s, before) && IsRun(After(s, before), after)
    ensures After(s, before + after) == After(After(s, before), after)
    decreases |before|
  {
    if before == [] {
      assert before + after == after;
    } else {
      assert (before + after)[1..] == before[1..] + after;
      RunsConcat(Step(s, before[0]), before[1..], after);
    }
  }

  // ----- the trace determines the builder and its arguments

  lemma {:induction false} BuilderIsFirstToLock(s: State, actions: seq<Action>)
    requires Invariant(s) && IsRun(s, actions) && (s.builder.None? ==> s.lock.None?)
    ensures After(s, actions).builder == if s.builder.Some? then s.builder else FirstToLock(actions)
    decreases |actions|
  {
    if actions == [] {
    } else {
      StepKeepsInvariant(s, actions[0]);
      StepExtends(s, actions[0]);
      BuilderIsFirstToLock(Step(s, actions[0]), actions[1..]);
    }
  }

  lemma OnlyBeginAdds(s: State, a: Action, t: Tid)
    requires Enabled(s, a) && t !in s.threads
    ensures t in Step(s, a).threads <==> a.Begin? && a.tid == t
    ensures t in Step(s, a).threads ==> Step(s, a).threads[t].args == a.args
  {
    hide BuildPart;
  }

  lemma {:induction false} ArgsAreAsBegun(s: State, actions: seq<Action>, t: Tid)
    requires Invariant(s) && IsRun(s, actions) && t !in s.threads
    ensures t in After(s, actions).threads <==> ArgsOf(actions, t).Some?
    ensures t in After(s, actions).threads ==> ArgsOf(actions, t) == Some(After(s, actions).threads[t].args)
    decreases |actions|
  {
    hide Invariant, Step, Enabled;
    if actions == [] {
    } else {
      var s1 := Step(s, actions[0]);
      StepKeepsInvariant(s, actions[0]);
      OnlyBeginAdds(s, actions[0], t);
      if t in s1.threads {
        RunKeeps(s1, actions[1..]);
      } else {
        ArgsAreAsBegun(s1, actions[1..], t);
      }
    }
  }

  // ----- main results, over every interleaving

  lemma Reachable(actions: seq<Action>)
    requires IsRun(INITIAL, actions)
    ensures Invariant(After(INITIAL, actions))
  {
    RunKeeps(INITIAL, actions);
  }

  // No caller panics on a missing client or is given a partly built one: every client returned is the same,
  // complete, and built from the mirror and root of the caller that got the lock first.
  lemma OneClientForAll(actions: seq<Action>, t: Tid)
    requires IsRun(INITIAL, actions) && Ended(After(INITIAL, actions), t)
    ensures var s := After(INITIAL, actions);
            && !OutcomeOf(s, t).Panicked?
            && (OutcomeOf(s, t).Returned? ==>
                  && s.singleton == Some(OutcomeOf(s, t).client)
                  && FirstToLock(actions).Some?
                  && ArgsOf(actions, FirstToLock(actions).value).Some?
                  && CompleteFrom(OutcomeOf(s, t).client, ArgsOf(actions, FirstToLock(actions).value).value))
  {
    hide CompleteFrom, DraftFits;
    Reachable(actions);
    BuilderIsFirstToLock(INITIAL, actions);
    if FirstToLock(actions).Some? {
      ArgsAreAsBegun(INITIAL, actions, FirstToLock(actions).value);
    }
  }

  // A construction error is final: once one caller has seen it, every caller that ever finishes gets the
  // same one.
  lemma ConstructionErrorIsSticky(before: seq<Action>, after: seq<Action>, t: Tid, u: Tid)
    requires IsRun(INITIAL, before + after)
    requires IsRun(INITIAL, before) && Ended(After(INITIAL, before), t)
    requires OutcomeOf(After(INITIAL, before), t).Failed?
             && OutcomeOf(After(INITIAL, before), t).failure.ConstructionFailed?
    requires Ended(After(INITIAL, before + after), u)
    ensures OutcomeOf(After(INITIAL, before + after), u) == OutcomeOf(After(INITIAL, before), t)
  {
    hide CompleteFrom, DraftFits;
    RunsConcat(INITIAL, before, after);
    Reachable(before);
    RunKeeps(After(INITIAL, before), after);
  }

  // The answer that makes a call fail after construction, if the trace has one.
  function OwnFailure(actions: seq<Action>, t: Tid): Option<Failure> {
    if actions == [] then None
    else
      match actions[0]
      case ReadMeta(u, Fails(reason), _) => if u == t then Some(MetaUnreadable(reason)) else OwnFailure(actions[1..], t)
      case Refresh(u, Fails(reason)) => if u == t then Some(UpdateFailed(reason)) else OwnFailure(actions[1..], t)
      case _ => OwnFailure(actions[1..], t)
  }

  function PublishedOutcome(client: Client, failure: Option<Failure>): Outcome {
    if failure.Some? then Failed(failure.value) else Returned(client)
  }

  lemma {:induction false} ReturnedCallsAct(s: State, actions: seq<Action>, t: Tid)
    requires Invariant(s) && IsRun(s, actions) && Ended(s, t)
    ensures OwnFailure(actions, t) == None
    decreases |actions|
  {
    hide Invariant, Step;
    if actions == [] {
    } else {
      StepKeepsInvariant(s, actions[0]);
      StepExtends(s, actions[0]);
      ReturnedCallsAct(Step(s, actions[0]), actions[1..], t);
    }
  }

  // How one step of a caller can end its call while a client is published.
  lemma LastStep(s: State, a: Action, t: Tid, client: Client)
    requires Invariant(s) && Enabled(s, a) && !Ended(s, t) && (s.singleton.Some? ==> s.singleton == Some(client))
    requires Ended(Step(s, a), t) && Step(s, a).error.None?
    ensures !a.Begin? && a.tid == t
    ensures OutcomeOf(Step(s, a), t) == PublishedOutcome(client, OwnFailure([a], t))
  {
    hide DraftFits, CompleteFrom, BuildPart;
    assert [a][1..] == [];
  }

  lemma OtherStep(s: State, a: Action, t: Tid)
    requires Invariant(s) && Enabled(s, a) && !Ended(s, t) && !Ended(Step(s, a), t)
    ensures OwnFailure([a], t) == None
  {
    hide DraftFits, CompleteFrom, BuildPart;
    assert [a][1..] == [];
  }

  lemma FirstFailure(a: Action, rest: seq<Action>, t: Tid)
    ensures OwnFailure([a] + rest, t) == if OwnFailure([a], t).Some? then OwnFailure([a], t) else OwnFailure(rest, t)
  {
    assert ([a] + rest)[1..] == rest && [a][1..] == [];
  }

  lemma {:induction false} OutcomeFrom(s: State, actions: seq<Action>, t: Tid, client: Client)
    requires Invariant(s) && IsRun(s, actions) && !Ended(s, t)
    requires Ended(After(s, actions), t) && After(s, actions).singleton == Some(client)
    ensures OutcomeOf(After(s, actions), t) == PublishedOutcome(client, OwnFailure(actions, t))
    decreases |actions|
  {
    hide Invariant, Step, Enabled, OwnFailure;
    if actions == [] {
    } else {
      var a, rest := actions[0], actions[1..];
      var s1 := Step(s, a);
      StepKeepsInvariant(s, a);
      StepExtends(s, a);
      RunKeeps(s1, rest);
      FirstFailure(a, rest, t);
      assert actions == [a] + rest;
      if Ended(s1, t) {
        NotBoth(After(s, actions));
        LastStep(s, a, t, client);
        ReturnedCallsAct(s1, rest, t);
      } else {
        OtherStep(s, a, t);
        OutcomeFrom(s1, rest, t, client);
      }
    }
  }

  lemma NotBoth(s: State)
    requires Invariant(s) && s.singleton.Some?
    ensures s.error.None?
  {
  }

  // Once a client is published, in every interleaving and for callers before and after: a call returns that
  // client, unless this caller's own metadata read or update failed, and then fails with that answer.
  lemma PublishedStaysUsable(before: seq<Action>, after: seq<Action>, u: Tid)
    requires IsRun(INITIAL, before + after)
    requires IsRun(INITIAL, before) && After(INITIAL, before).singleton.Some?
    requires Ended(After(INITIAL, before + after), u)
    ensures OutcomeOf(After(INITIAL, before + after), u) ==
            PublishedOutcome(After(INITIAL, before).singleton.value, OwnFailure(before + after, u))
  {
    hide CompleteFrom, DraftFits, Step;
    RunsConcat(INITIAL, before, after);
    Reachable(before);
    RunKeeps(After(INITIAL, before), after);
    OutcomeFrom(INITIAL, before + after, u, After(INITIAL, before).singleton.value);
  }

  // Every metadata read and update of this caller is answered.
  predicate OwnWork(actions: seq<Action>, t: Tid) {
    forall i :: 0 <= i < |actions| && actions[i].tid == t ==>
      && (actions[i].ReadMeta? ==> actions[i].answer.Works?)
      && (actions[i].Refresh? ==> actions[i].answer.Works?)
  }

  lemma {:induction false} WorkIsNoFailure(actions: seq<Action>, t: Tid)
    requires OwnWork(actions, t)
    ensures OwnFailure(actions, t) == None
  {
    if actions == [] {
    } else {
      WorkIsNoFailure(actions[1..], t);
    }
  }

  // Failed updates and metadata reads are not final: whatever happened to others, in every interleaving, a
  // caller whose own reads and updates work gets the published client.
  lemma FailedUpdateIsNotSticky(actions: seq<Action>, t: Tid)
    requires IsRun(INITIAL, actions) && OwnWork(actions, t)
    requires Ended(After(INITIAL, actions), t) && After(INITIAL, actions).singleton.Some?
    ensures OutcomeOf(After(INITIAL, actions), t) == Returned(After(INITIAL, actions).singleton.value)
  {
    hide Step, OwnWork, OwnFailure;
    Reachable([]);
    OutcomeFrom(INITIAL, actions, t, After(INITIAL, actions).singleton.value);
    WorkIsNoFailure(actions, t);
  }

  // ----- every call returns

  function PartsLeft(part: Part): nat {
    match part
    case MakeTargets => 7
    case OpenLocal => 6
    case OpenRemote => 5
    case MakeClient => 4
    case ReadStored => 3
    case FindRoot => 2
    case InitClient => 1
  }

  function StepsLeft(pc: PC): nat {
    match pc
    case Waiting => 11
    case Building(part, _, _) => 3 + PartsLeft(part)
    case Checking => 3
    case Reading => 2
    case Updating => 1
    case Finished(_) => 0
  }

  function OwnSteps(actions: seq<Action>, t: Tid): nat {
    if actions == [] then 0
    else (if !actions[0].Begin? && actions[0].tid == t then 1 else 0) + OwnSteps(actions[1..], t)
  }

  lemma StepCosts(s: State, a: Action, t: Tid)
    requires Enabled(s, a) && t in s.threads
    ensures t in Step(s, a).threads
    ensures StepsLeft(Step(s, a).threads[t].pc) + (if !a.Begin? && a.tid == t then 1 else 0)
            <= StepsLeft(s.threads[t].pc)
  {
  }

  // A caller takes a bounded number of steps, whatever the others do.
  lemma {:induction false} StepsAreBounded(s: State, actions: seq<Action>, t: Tid)
    requires IsRun(s, actions) && t in s.threads
    ensures t in After(s, actions).threads
    ensures OwnSteps(actions, t) + StepsLeft(After(s, actions).threads[t].pc) <= StepsLeft(s.threads[t].pc)
    decreases |actions|
  {
    hide Step, Enabled, StepsLeft;
    if actions == [] {
    } else {
      StepCosts(s, actions[0], t);
      StepsAreBounded(Step(s, actions[0]), actions[1..], t);
    }
  }

  // No deadlock: while some call has not returned, some caller other than a new one can move.
  lemma SomeoneCanMove(actions: seq<Action>, t: Tid)
    requires IsRun(INITIAL, actions)
    requires var s := After(INITIAL, actions); t in s.threads && !Ended(s, t)
    ensures exists a: Action :: !a.Begin? && Enabled(After(INITIAL, actions), a)
  {
    hide CompleteFrom, DraftFits, BuildPart;
    Reachable(actions);
    var s := After(INITIAL, actions);
    if s.lock.None? {
      assert Enabled(s, Acquire(t));
    } else {
      var h := s.lock.value;
      var ok := Works(None);
      assert Enabled(s, Build(h, ok)) || Enabled(s, Check(h)) || Enabled(s, ReadMeta(h, ok, true))
             || Enabled(s, Refresh(h, ok));
    }
  }
}
