/** pkg/tuf/client.go, GetTargetsByMeta: a query by custom metadata that holds the client's lock only for
    one target at a time, so updates run between and within its steps. */
module TufQuery {
  import opened Wrappers
  import opened Bytes
  import opened TufCache
  import opened TufClient
  import TufRuns

  // The client as other goroutines leave it over time; each read of it happens at its own moment.
  type History = nat -> Store

  datatype TargetFile = TargetFile(name: string, target: bytes, status: StatusKind)

  datatype QueryError =
    | TargetsUnavailable
    | MatchingTargetFailed(name: string)
    | NothingFound

  // The caller's environment: constants, the history, and the moments at which verifying the local
  // metadata would fail.
  datatype World = World(env: Env, caching: bool, history: History, metaOk: nat -> bool)

  // GetTarget reads the metadata at one moment and the cache at the next.
  function GetAt(w: World, name: string, t: nat): Result<bytes, GetError> {
    GetAcross(w.history(t).trusted, w.history(t + 1), w.env, w.caching, name, w.metaOk(t))
  }

  predicate Matches(meta: TargetMeta, usage: UsageKind) {
    meta.custom.Sigstore? && meta.custom.usage == usage
  }

  // What the first loop ends with, and when.
  type Matching = (Result<seq<TargetFile>, QueryError>, nat)

  // The matching targets of a snapshot in some order, or the first that could not be retrieved; the
  // second result is the moment the loop ends.
  function Matched(w: World, snapshot: Targets, order: seq<string>, usage: UsageKind, t: nat): Matching
    requires forall i :: 0 <= i < |order| ==> order[i] in snapshot
    decreases |order|
  {
    if order == [] then (Ok([]), t)
    else if !Matches(snapshot[order[0]], usage) then Matched(w, snapshot, order[1..], usage, t)
    else
      match GetAt(w, order[0], t)
      case Err(_) => (Err(MatchingTargetFailed(order[0])), t + 2)
      case Ok(b) =>
        var (rest, end) := Matched(w, snapshot, order[1..], usage, t + 2);
        (match rest
         case Err(e) => (Err(e), end)
         case Ok(files) => (Ok([TargetFile(order[0], b, snapshot[order[0]].custom.status)] + files), end))
  }

  // The fallbacks that can be retrieved, in order.
  function Fallbacks(w: World, fallbacks: seq<string>, t: nat): seq<TargetFile>
    decreases |fallbacks|
  {
    if fallbacks == [] then []
    else
      (match GetAt(w, fallbacks[0], t)
       case Err(_) => []
       case Ok(b) => [TargetFile(fallbacks[0], b, Active)])
      + Fallbacks(w, fallbacks[1..], t + 2)
  }

  function Query(w: World, usage: UsageKind, fallbacks: seq<string>, order: seq<string>,
                 t: nat): Result<seq<TargetFile>, QueryError>
    requires w.history(t).trusted.Some? ==> Enumerates(order, w.history(t).trusted.value.Keys)
  {
    if !w.metaOk(t) || w.history(t).trusted.None? then Err(TargetsUnavailable)
    else
      var (matched, end) := Matched(w, w.history(t).trusted.value, order, usage, t + 1);
      match matched
      case Err(e) => Err(e)
      case Ok(files) =>
        if files != [] then Ok(files)
        else
          var found := Fallbacks(w, fallbacks, end);
          if found == [] then Err(NothingFound) else Ok(found)
  }

  // The first loop: order is the iteration order over the snapshot's map.
  method CollectMatching(w: World, snapshot: Targets, order: seq<string>, usage: UsageKind, t: nat)
    returns (r: Result<seq<TargetFile>, QueryError>, now: nat)
    requires forall i :: 0 <= i < |order| ==> order[i] in snapshot
    ensures (r, now) == Matched(w, snapshot, order, usage, t)
  {
    now := t;
    var matchedTargets: seq<TargetFile> := [];
    ghost var whole := Matched(w, snapshot, order, usage, t);
    PrependNone(whole);
    assert order[0..] == order;
    for i := 0 to |order|
      invariant whole == Prepend(matchedTargets, Matched(w, snapshot, order[i..], usage, now))
    {
      assert order[i..][1..] == order[i + 1..];
      if Matches(snapshot[order[i]], usage) {
        var target := GetAt(w, order[i], now);
        if target.Err? {
          return Err(MatchingTargetFailed(order[i])), now + 2;
        }
        var file := TargetFile(order[i], target.value, snapshot[order[i]].custom.status);
        PrependOne(matchedTargets, file, Matched(w, snapshot, order[i + 1..], usage, now + 2));
        now := now + 2;
        matchedTargets := matchedTargets + [file];
      }
    }
    assert matchedTargets + [] == matchedTargets;
    r := Ok(matchedTargets);
  }

  // The second loop.
  method CollectFallbacks(w: World, fallbacks: seq<string>, t: nat) returns (files: seq<TargetFile>)
    ensures files == Fallbacks(w, fallbacks, t)
  {
    hide GetAt;
    var now := t;
    files := [];
    assert fallbacks[0..] == fallbacks;
    for i := 0 to |fallbacks|
      invariant Fallbacks(w, fallbacks, t) == files + Fallbacks(w, fallbacks[i..], now)
    {
      assert fallbacks[i..][1..] == fallbacks[i + 1..];
      ghost var before, rest := files, Fallbacks(w, fallbacks[i + 1..], now + 2);
      var target := GetAt(w, fallbacks[i], now);
      now := now + 2;
      if target.Ok? {
        var file := TargetFile(fallbacks[i], target.value, Active);
        assert before + ([file] + rest) == (before + [file]) + rest;
        files := files + [file];
      } else {
        assert [] + rest == rest;
      }
    }
    assert files + [] == files;
  }

  method GetTargetsByMeta(w: World, usage: UsageKind, fallbacks: seq<string>, order: seq<string>, t: nat)
    returns (r: Result<seq<TargetFile>, QueryError>)
    requires w.history(t).trusted.Some? ==> Enumerates(order, w.history(t).trusted.value.Keys)
    ensures r == Query(w, usage, fallbacks, order, t)
  {
    if !w.metaOk(t) || w.history(t).trusted.None? {
      return Err(TargetsUnavailable);
    }
    var matched, now := CollectMatching(w, w.history(t).trusted.value, order, usage, t + 1);
    if matched.Err? {
      return matched;
    }
    var matchedTargets := matched.value;
    if |matchedTargets| == 0 {
      matchedTargets := CollectFallbacks(w, fallbacks, now);
    }
    if |matchedTargets| == 0 {
      return Err(NothingFound);
    }
    return Ok(matchedTargets);
  }

  function Prepend(found: seq<TargetFile>, r: Matching): Matching {
    match r.0
    case Err(e) => r
    case Ok(files) => (Ok(found + files), r.1)
  }

  lemma PrependNone(r: Matching)
    ensures Prepend([], r) == r
  {
    if r.0.Ok? {
      assert [] + r.0.value == r.0.value;
    }
  }

  lemma PrependOne(found: seq<TargetFile>, file: TargetFile, r: Matching)
    ensures Prepend(found, Prepend([file], r)) == Prepend(found + [file], r)
  {
    if r.0.Ok? {
      assert found + ([file] + r.0.value) == (found + [file]) + r.0.value;
    }
  }

  // ----- with updates in between

  // The file's bytes are valid for metadata that was trusted at some moment of the call.
  ghost predicate ValidSometime(w: World, f: TargetFile, start: nat, end: nat) {
    exists t :: TrustedAndValid(w, f, start, end, t)
  }

  predicate TrustedAndValid(w: World, f: TargetFile, start: nat, end: nat, t: nat) {
    && start <= t < end
    && w.history(t).trusted.Some? && f.name in w.history(t).trusted.value
    && ValidTarget(f.target, w.history(t).trusted.value[f.name], w.env)
  }

  // Usage and status come from the snapshot.
  predicate FromSnapshot(snapshot: Targets, f: TargetFile, usage: UsageKind) {
    f.name in snapshot && Matches(snapshot[f.name], usage) && f.status == snapshot[f.name].custom.status
  }

  ghost predicate MatchedFile(w: World, snapshot: Targets, usage: UsageKind, start: nat, end: nat, f: TargetFile) {
    FromSnapshot(snapshot, f, usage) && ValidSometime(w, f, start, end)
  }

  ghost predicate FallbackFile(w: World, fallbacks: seq<string>, start: nat, end: nat, f: TargetFile) {
    f.status == Active && f.name in fallbacks && ValidSometime(w, f, start, end)
  }

  function Names(files: seq<TargetFile>): seq<string> {
    if files == [] then [] else [files[0].name] + Names(files[1..])
  }

  function MatchingNames(snapshot: Targets, order: seq<string>, usage: UsageKind): seq<string>
    requires forall i :: 0 <= i < |order| ==> order[i] in snapshot
  {
    if order == [] then []
    else (if Matches(snapshot[order[0]], usage) then [order[0]] else []) + MatchingNames(snapshot, order[1..], usage)
  }

  lemma {:induction false} MatchedFacts(w: World, snapshot: Targets, order: seq<string>, usage: UsageKind, t: nat,
                                        start: nat, end: nat)
    requires forall i :: 0 <= i < |order| ==> order[i] in snapshot
    requires start <= t && Matched(w, snapshot, order, usage, t).1 <= end
    ensures var (r, now) := Matched(w, snapshot, order, usage, t);
            && t <= now
            && (r.Ok? ==>
                  && Names(r.value) == MatchingNames(snapshot, order, usage)
                  && forall f :: f in r.value ==> MatchedFile(w, snapshot, usage, start, end, f))
    decreases |order|
  {
    if order == [] {
    } else {
      var n := order[0];
      if !Matches(snapshot[n], usage) {
        MatchedFacts(w, snapshot, order[1..], usage, t, start, end);
      } else if GetAt(w, n, t).Ok? {
        MatchedFacts(w, snapshot, order[1..], usage, t + 2, start, end);
        var file := TargetFile(n, GetAt(w, n, t).value, snapshot[n].custom.status);
        assert TrustedAndValid(w, file, start, end, t);
        var rest := Matched(w, snapshot, order[1..], usage, t + 2).0;
        if rest.Ok? {
          assert ([file] + rest.value)[1..] == rest.value;
        }
      }
    }
  }

  lemma {:induction false} FallbackFacts(w: World, fallbacks: seq<string>, t: nat, start: nat, end: nat)
    requires start <= t && t + 2 * |fallbacks| <= end
    ensures forall f :: f in Fallbacks(w, fallbacks, t) ==> FallbackFile(w, fallbacks, start, end, f)
    decreases |fallbacks|
  {
    if fallbacks == [] {
    } else {
      var n := fallbacks[0];
      FallbackFacts(w, fallbacks[1..], t + 2, start, end);
      assert fallbacks == [n] + fallbacks[1..];
      if GetAt(w, n, t).Ok? {
        assert TrustedAndValid(w, TargetFile(n, GetAt(w, n, t).value, Active), start, end, t);
      }
    }
  }

  // No read of the call happens at this moment or later.
  function QueryEnd(w: World, usage: UsageKind, fallbacks: seq<string>, order: seq<string>, t: nat): nat
    requires w.history(t).trusted.Some? && Enumerates(order, w.history(t).trusted.value.Keys)
  {
    Matched(w, w.history(t).trusted.value, order, usage, t + 1).1 + 2 * |fallbacks|
  }

  // Whatever updates do meanwhile: a success holds exactly the matching names of the snapshot taken at
  // the start, each with its usage and status from there, or only fallbacks when none match; and every
  // file's bytes are valid for metadata trusted at some moment of the call.
  lemma InterleavedQuery(w: World, usage: UsageKind, fallbacks: seq<string>, order: seq<string>, t: nat)
    requires w.history(t).trusted.Some? ==> Enumerates(order, w.history(t).trusted.value.Keys)
    requires Query(w, usage, fallbacks, order, t).Ok?
    ensures w.history(t).trusted.Some?
    ensures var files, snapshot := Query(w, usage, fallbacks, order, t).value, w.history(t).trusted.value;
            var end := QueryEnd(w, usage, fallbacks, order, t);
            && (if exists n :: n in snapshot && snapshot[n].custom.Sigstore? && snapshot[n].custom.usage == usage then
                  && (forall n :: Listed(files, n) <==>
                        n in snapshot && snapshot[n].custom.Sigstore? && snapshot[n].custom.usage == usage)
                  && (forall f :: f in files ==>
                        && f.name in snapshot && snapshot[f.name].custom == Sigstore(usage, f.status)
                        && ValidSometime(w, f, t, end))
                else
                  forall f :: f in files ==> f.status == Active && f.name in fallbacks && ValidSometime(w, f, t, end))
            && (forall f :: f in files ==>
                  exists m ::
                    && t <= m < end && w.history(m).trusted.Some? && f.name in w.history(m).trusted.value
                    && |f.target| == w.history(m).trusted.value[f.name].length
                    && w.env.sum(f.target) == w.history(m).trusted.value[f.name].digest)
            && (MatchingNames(snapshot, order, usage) != [] ==> Names(files) == MatchingNames(snapshot, order, usage))
  {
    var snapshot := w.history(t).trusted.value;
    var (matched, now) := Matched(w, snapshot, order, usage, t + 1);
    var end := QueryEnd(w, usage, fallbacks, order, t);
    MatchedFacts(w, snapshot, order, usage, t + 1, t, end);
    FallbackFacts(w, fallbacks, now, t, end);
    assert matched.Ok?;
    assert Names(matched.value) == [] <==> matched.value == [];
    MatchingListed(snapshot, order, usage, matched.value);
    forall f | f in Query(w, usage, fallbacks, order, t).value
      ensures exists m ::
                && t <= m < end && w.history(m).trusted.Some? && f.name in w.history(m).trusted.value
                && |f.target| == w.history(m).trusted.value[f.name].length
                && w.env.sum(f.target) == w.history(m).trusted.value[f.name].digest
    {
      assert ValidSometime(w, f, t, end);
      var m :| TrustedAndValid(w, f, t, end, m);
    }
  }

  predicate Listed(files: seq<TargetFile>, n: string) {
    exists i :: 0 <= i < |files| && files[i].name == n
  }

  lemma {:induction false} ListedInNames(files: seq<TargetFile>, n: string)
    ensures n in Names(files) <==> Listed(files, n)
  {
    if files == [] {
    } else {
      ListedInNames(files[1..], n);
      assert files == [files[0]] + files[1..];
    }
  }

  // The names that match, said on the metadata itself.
  lemma MatchingListed(snapshot: Targets, order: seq<string>, usage: UsageKind, files: seq<TargetFile>)
    requires Enumerates(order, snapshot.Keys) && Names(files) == MatchingNames(snapshot, order, usage)
    ensures forall n :: Listed(files, n) <==>
              n in snapshot && snapshot[n].custom.Sigstore? && snapshot[n].custom.usage == usage
    ensures files != [] <==>
            exists n :: n in snapshot && snapshot[n].custom.Sigstore? && snapshot[n].custom.usage == usage
  {
    forall n
      ensures Listed(files, n) <==> n in snapshot && snapshot[n].custom.Sigstore? && snapshot[n].custom.usage == usage
    {
      ListedInNames(files, n);
      MatchingNamesIff(snapshot, order, usage, n);
    }
    if files != [] {
      assert Listed(files, files[0].name);
    }
  }

  lemma {:induction false} MatchingNamesIff(snapshot: Targets, order: seq<string>, usage: UsageKind, n: string)
    requires forall i :: 0 <= i < |order| ==> order[i] in snapshot
    ensures n in MatchingNames(snapshot, order, usage) <==> n in order && Matches(snapshot[n], usage)
  {
    if order == [] {
    } else {
      MatchingNamesIff(snapshot, order[1..], usage, n);
      assert order == [order[0]] + order[1..];
    }
  }

  // ----- without updates in between

  ghost predicate Quiet(w: World, s: Store) {
    forall t :: w.history(t) == s && w.metaOk(t)
  }

  // The retrievable fallbacks in order.
  function RetrievableFallbacks(s: Store, env: Env, caching: bool, fallbacks: seq<string>): seq<TargetFile> {
    if fallbacks == [] then []
    else
      (match GetTarget(s, env, caching, fallbacks[0], true)
       case Err(_) => []
       case Ok(b) => [TargetFile(fallbacks[0], b, Active)])
      + RetrievableFallbacks(s, env, caching, fallbacks[1..])
  }

  // A matching target of the store, as the query reports it.
  predicate Reported(s: Store, env: Env, caching: bool, usage: UsageKind, f: TargetFile)
    requires s.trusted.Some?
  {
    && FromSnapshot(s.trusted.value, f, usage)
    && GetTarget(s, env, caching, f.name, true) == Ok(f.target)
  }

  lemma {:induction false} QuietMatched(w: World, s: Store, order: seq<string>, usage: UsageKind, t: nat)
    requires Quiet(w, s) && s.trusted.Some?
    requires forall i :: 0 <= i < |order| ==> order[i] in s.trusted.value
    ensures var r := Matched(w, s.trusted.value, order, usage, t).0;
            && (r.Ok? <==>
                forall n :: n in order && Matches(s.trusted.value[n], usage) ==>
                  GetTarget(s, w.env, w.caching, n, true).Ok?)
            && (r.Ok? ==> forall i :: 0 <= i < |r.value| ==> Reported(s, w.env, w.caching, usage, r.value[i]))
    decreases |order|
  {
    if order == [] {
    } else {
      var n := order[0];
      assert order == [n] + order[1..];
      assert GetAt(w, n, t) == GetTarget(s, w.env, w.caching, n, true);
      if !Matches(s.trusted.value[n], usage) {
        QuietMatched(w, s, order[1..], usage, t);
      } else {
        QuietMatched(w, s, order[1..], usage, t + 2);
      }
    }
  }

  lemma {:induction false} QuietFallbacks(w: World, s: Store, fallbacks: seq<string>, t: nat)
    requires Quiet(w, s)
    ensures Fallbacks(w, fallbacks, t) == RetrievableFallbacks(s, w.env, w.caching, fallbacks)
    decreases |fallbacks|
  {
    if fallbacks == [] {
    } else {
      assert GetAt(w, fallbacks[0], t) == GetTarget(s, w.env, w.caching, fallbacks[0], true);
      QuietFallbacks(w, s, fallbacks[1..], t + 2);
    }
  }

  // With nothing in between, for every iteration order: when some target matches, the query succeeds
  // exactly when all matching targets can be retrieved, and then reports each of them and nothing else;
  // when none matches it reports the retrievable fallbacks in order, as Active, if there are any.
  lemma QuietQuery(w: World, s: Store, usage: UsageKind, fallbacks: seq<string>, order: seq<string>, t: nat)
    requires Quiet(w, s) && s.trusted.Some? && Enumerates(order, s.trusted.value.Keys)
    ensures var r := Query(w, usage, fallbacks, order, t);
            var targets := s.trusted.value;
            if exists n :: n in targets && targets[n].custom.Sigstore? && targets[n].custom.usage == usage then
              && (r.Ok? <==>
                  forall n :: n in targets && targets[n].custom.Sigstore? && targets[n].custom.usage == usage ==>
                    GetTarget(s, w.env, w.caching, n, true).Ok?)
              && (r.Ok? ==>
                    && (forall i :: 0 <= i < |r.value| ==>
                          && r.value[i].name in targets
                          && targets[r.value[i].name].custom == Sigstore(usage, r.value[i].status)
                          && GetTarget(s, w.env, w.caching, r.value[i].name, true) == Ok(r.value[i].target))
                    && (forall n :: Listed(r.value, n) <==>
                          n in targets && targets[n].custom.Sigstore? && targets[n].custom.usage == usage)
                    && Names(r.value) == MatchingNames(targets, order, usage))
            else
              var found := RetrievableFallbacks(s, w.env, w.caching, fallbacks);
              r == if found == [] then Err(NothingFound) else Ok(found)
  {
    var targets := s.trusted.value;
    var (matched, end) := Matched(w, targets, order, usage, t + 1);
    QuietMatched(w, s, order, usage, t + 1);
    MatchedFacts(w, targets, order, usage, t + 1, t, end);
    QuietFallbacks(w, s, fallbacks, end);
    if matched.Ok? {
      MatchingListed(targets, order, usage, matched.value);
    }
  }

  // End to end: after any run without failed update steps and a successful initialization, a query with
  // nothing in between succeeds for every usage that some trusted target has, with all of those targets.
  lemma InitializedQuerySucceeds(caching: bool, events: seq<TufRuns.Event>, call: InitCall, env: Env,
                                 names: set<string>,
                                 w: World, usage: UsageKind, fallbacks: seq<string>, order: seq<string>, t: nat)
    requires DistinctPaths(env.path, names)
    requires TufRuns.LawfulRun(TufRuns.Fresh(caching), events, env)
             && TufRuns.GoodRun(TufRuns.Fresh(caching), events, env, names)
    requires var p := TufRuns.After(TufRuns.Fresh(caching), events, env);
             && LawfulCall(p, call, env) && TufRuns.GoodEvent(p, TufRuns.InitEvent(call), env, names)
             && Initialize(p, call, env).1 == Initialized
    requires var q := Initialize(TufRuns.After(TufRuns.Fresh(caching), events, env), call, env).0;
             && w.env == env && w.caching == q.caching && Quiet(w, q.store)
             && q.store.trusted.Some? && Enumerates(order, q.store.trusted.value.Keys)
             && exists n :: n in q.store.trusted.value && q.store.trusted.value[n].custom.Sigstore?
                            && q.store.trusted.value[n].custom.usage == usage
    ensures var r, targets := Query(w, usage, fallbacks, order, t), w.history(t).trusted;
            && r.Ok? && targets.Some?
            && (forall i :: 0 <= i < |r.value| ==>
                  && r.value[i].name in targets.value
                  && targets.value[r.value[i].name].custom == Sigstore(usage, r.value[i].status)
                  && |r.value[i].target| == targets.value[r.value[i].name].length
                  && env.sum(r.value[i].target) == targets.value[r.value[i].name].digest)
            && (forall n :: Listed(r.value, n) <==>
                  n in targets.value && targets.value[n].custom.Sigstore? && targets.value[n].custom.usage == usage)
  {
    hide Query, Matches, Initialize, LawfulCall, MatchingNames;
    var q := Initialize(TufRuns.After(TufRuns.Fresh(caching), events, env), call, env).0;
    TufRuns.SuccessfulInitServesEverything(caching, events, call, env, names);
    assert w.history(t) == q.store;
    QuietQuery(w, q.store, usage, fallbacks, order, t);
  }
}
