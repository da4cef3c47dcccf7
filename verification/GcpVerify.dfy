/** pkg/signature/kms/gcp/client.go: verification against a cached key version, retried once with a
    freshly fetched one, over readers the first attempt may have drained. */
module GcpVerify {
  import opened Wrappers
  import opened Bytes
  import opened Options
  import opened Digest

  // A key version's verifier: its hash, the hashes it supports, and its check of a digest and a signature.
  datatype KeyVersion = KeyVersion(hash: Hash, supported: Supported, check: (bytes, bytes) -> bool)

  ghost predicate RejectsEmpty(kv: KeyVersion) {
    forall d :: !kv.check(d, [])
  }

  // An io.Reader over bytes in memory. One that rewinds starts over after each full read.
  class Reader {
    var unread: bytes
    const rewinds: bool

    constructor (content: bytes, rewinds: bool)
      ensures unread == content && this.rewinds == rewinds
    {
      unread := content;
      this.rewinds := rewinds;
    }

    method ReadAll() returns (content: bytes)
      modifies this
      ensures content == old(unread)
      ensures unread == if rewinds then old(unread) else []
    {
      content := unread;
      if !rewinds {
        unread := [];
      }
    }
  }

  datatype Outcome = Accepted | Rejected | Transient

  // ----- one attempt with one key version

  function DigestFor(kv: KeyVersion, message: bytes, opts: seq<Opt>, h: HashFunctions): Computed {
    ComputeDigest(Some(message), kv.hash, kv.supported, opts, h)
  }

  predicate Accepts(kv: KeyVersion, sig: bytes, message: bytes, opts: seq<Opt>, h: HashFunctions) {
    var d := DigestFor(kv, message, opts, h);
    d.err.None? && d.digest.Some? && kv.check(d.digest.value, sig)
  }

  // What the attempt asks of the key: its check of a given digest of the right length, or else of the
  // message's, under a hash that the key version supports.
  predicate CheckPasses(kv: KeyVersion, sig: bytes, message: bytes, opts: seq<Opt>, h: HashFunctions) {
    var a := Or(LastSignerOpts(opts), HashOpts(kv.hash)).hash;
    var given := Or(Or(LastDigest(opts), None), []);
    && (kv.supported.None? || a in kv.supported.value)
    && (if given == [] then kv.check(if a == NO_HASH then message else h.sum(a, message), sig)
        else (a == NO_HASH || |given| == h.size(a)) && kv.check(given, sig))
  }

  lemma AcceptsIsCheck(kv: KeyVersion, sig: bytes, message: bytes, opts: seq<Opt>, h: HashFunctions)
    ensures Accepts(kv, sig, message, opts, h) == CheckPasses(kv, sig, message, opts, h)
  {
    DigestIs(Some(message), kv.hash, kv.supported, opts, h);
  }

  // The attempt stops before reading anything.
  predicate StopsEarly(kv: KeyVersion, opts: seq<Opt>, h: HashFunctions) {
    DigestFor(kv, [], opts, h).err.Some?
  }

  // A digest given as an option replaces the message.
  predicate ReadsMessage(opts: seq<Opt>) {
    Length(Or(LastDigest(opts), None)) == 0
  }

  // An unsupported hash, or a given digest of another length than the hash's.
  predicate CannotStart(kv: KeyVersion, opts: seq<Opt>, h: HashFunctions) {
    var a := Or(LastSignerOpts(opts), HashOpts(kv.hash)).hash;
    var given := Or(Or(LastDigest(opts), None), []);
    || (kv.supported.Some? && a !in kv.supported.value)
    || (given != [] && a != NO_HASH && |given| != h.size(a))
  }

  lemma DigestFacts(kv: KeyVersion, message: bytes, opts: seq<Opt>, h: HashFunctions)
    ensures DigestFor(kv, message, opts, h).err.Some? <==> StopsEarly(kv, opts, h)
    ensures DigestFor(kv, message, opts, h).err.None? ==> DigestFor(kv, message, opts, h).digest.Some?
    ensures !ReadsMessage(opts) ==> DigestFor(kv, message, opts, h) == DigestFor(kv, [], opts, h)
    ensures var given := Or(Or(LastDigest(opts), None), []);
            && (StopsEarly(kv, opts, h) <==> CannotStart(kv, opts, h))
            && (ReadsMessage(opts) <==> given == [])
  {
    FoldIsLast(opts, Start(kv.hash));
  }

  function AfterReading(unread: bytes, read: bool, rewinds: bool): bytes {
    if read && !rewinds then [] else unread
  }

  method VerifySignature(kv: KeyVersion, sig: Reader, message: Reader, opts: seq<Opt>, h: HashFunctions)
    returns (ok: bool)
    requires sig != message
    modifies sig, message
    ensures var a := Or(LastSignerOpts(opts), HashOpts(kv.hash)).hash;
            var given := Or(Or(LastDigest(opts), None), []);
            ok ==
            (&& (kv.supported.None? || a in kv.supported.value)
             && (if given == []
                 then kv.check(if a == NO_HASH then old(message.unread)
                               else h.sum(a, old(message.unread)), old(sig.unread))
                 else (a == NO_HASH || |given| == h.size(a)) && kv.check(given, old(sig.unread))))
    ensures ok == Accepts(kv, old(sig.unread), old(message.unread), opts, h)
    ensures sig.unread == AfterReading(old(sig.unread), !StopsEarly(kv, opts, h), sig.rewinds)
    ensures message.unread ==
            AfterReading(old(message.unread), !StopsEarly(kv, opts, h) && ReadsMessage(opts), message.rewinds)
  {
    DigestFacts(kv, message.unread, opts, h);
    AcceptsIsCheck(kv, sig.unread, message.unread, opts, h);
    FoldIsLast(opts, Start(kv.hash));
    var alg := Or(LastSignerOpts(opts), HashOpts(kv.hash)).hash;
    var computed: Computed;
    match Select(Or(LastDigest(opts), None), alg, kv.supported, h) {
      case Settled(c) => computed := c;
      case FromMessage(a) =>
        var m := message.ReadAll();
        computed := HashMessage(Some(m), a, h);
    }
    if computed.err.Some? {
      return false;
    }
    var s := sig.ReadAll();
    ok := kv.check(computed.digest.value, s);
  }

  // ----- the client

  // The key service: what each further request for the key version answers.
  class KeyService {
    const answer: nat -> Option<KeyVersion>
    var requests: nat

    constructor (answer: nat -> Option<KeyVersion>)
      ensures this.answer == answer && requests == 0
    {
      this.answer := answer;
      requests := 0;
    }

    method Fetch() returns (r: Option<KeyVersion>)
      modifies this
      ensures r == answer(old(requests)) && requests == old(requests) + 1
    {
      r := answer(requests);
      requests := requests + 1;
    }
  }

  // What a client keeps between calls: the cached key version, and how many requests it has made.
  datatype Client = Client(cache: Option<KeyVersion>, requests: nat)

  // getCKV: a cached version, unless it was to expire and did, else a requested one.
  function Load(c: Client, pinned: bool, answer: nat -> Option<KeyVersion>, expired: bool): Client {
    if c.cache.Some? && !(expired && !pinned) then c else Client(answer(c.requests), c.requests + 1)
  }

  // One call: what is read, in which way, the options, and whether the cached entry has expired.
  datatype Input = Input(sig: bytes, message: bytes, sigRewinds: bool, messageRewinds: bool, opts: seq<Opt>,
                         expired: bool)

  // The second attempt reads what the first one left.
  function RetryAccepts(first: KeyVersion, retry: KeyVersion, i: Input, h: HashFunctions): bool {
    var started := !StopsEarly(first, i.opts, h);
    Accepts(retry, AfterReading(i.sig, started, i.sigRewinds),
            AfterReading(i.message, started && ReadsMessage(i.opts), i.messageRewinds), i.opts, h)
  }

  function VerifyStep(c: Client, pinned: bool, answer: nat -> Option<KeyVersion>, i: Input,
                      h: HashFunctions): (Client, Outcome)
  {
    var c1 := Load(c, pinned, answer, i.expired);
    if c1.cache.None? then (c1, Transient)
    else if Accepts(c1.cache.value, i.sig, i.message, i.opts, h) then (c1, Accepted)
    else if pinned then (c1, Rejected)
    else
      var c2 := Load(c1.(cache := None), pinned, answer, false);
      if c2.cache.None? then (c2, Transient)
      else (c2, if RetryAccepts(c1.cache.value, c2.cache.value, i, h) then Accepted else Rejected)
  }

  class GcpClient {
    const version: string
    const kms: KeyService
    var kvCache: Option<KeyVersion>

    constructor (version: string, kms: KeyService)
      ensures this.version == version && this.kms == kms && kvCache == None
    {
      this.version := version;
      this.kms := kms;
      kvCache := None;
    }

    ghost function State(): Client
      reads this, kms
    {
      Client(kvCache, kms.requests)
    }

    // An entry of a pinned version never expires; any other may have.
    method GetCKV(expired: bool) returns (r: Option<KeyVersion>)
      modifies this, kms
      ensures State() == Load(old(State()), version != "", kms.answer, expired)
      ensures r == kvCache
    {
      if expired && version == "" {
        kvCache := None;
      }
      if kvCache.None? {
        kvCache := kms.Fetch();
      }
      r := kvCache;
    }

    // The key version of the first attempt, and the one a retry requests.
    ghost function First(expired: bool): Option<KeyVersion>
      reads this, kms
    {
      Load(State(), version != "", kms.answer, expired).cache
    }

    ghost function Retry(expired: bool): Option<KeyVersion>
      reads this, kms
    {
      kms.answer(Load(State(), version != "", kms.answer, expired).requests)
    }

    // Unpinned and with the needed requests answered: over inputs that can be read again, either version's
    // acceptance is enough. Over a signature that cannot, the fetched version has a say only when the first
    // attempt stopped before reading; otherwise it is shown an empty signature and the first verdict stands.
    method Verify(sig: Reader, message: Reader, opts: seq<Opt>, h: HashFunctions, expired: bool) returns (r: Outcome)
      requires sig != message
      modifies this, kms, sig, message
      ensures (State(), r) ==
              VerifyStep(old(State()), version != "", kms.answer,
                         Input(old(sig.unread), old(message.unread), sig.rewinds, message.rewinds, opts, expired), h)
      ensures old(First(expired)).None? ==> r == Transient
      ensures version != "" && old(First(expired)).Some? ==>
                r == if CheckPasses(old(First(expired)).value, old(sig.unread), old(message.unread), opts, h)
                     then Accepted else Rejected
      ensures version == "" && old(First(expired)).Some? && old(Retry(expired)).Some? && sig.rewinds
              && message.rewinds ==>
                (r == Accepted <==>
                 || CheckPasses(old(First(expired)).value, old(sig.unread), old(message.unread), opts, h)
                 || CheckPasses(old(Retry(expired)).value, old(sig.unread), old(message.unread), opts, h))
      ensures version == "" && old(First(expired)).Some? && old(Retry(expired)).Some? && !sig.rewinds
              && RejectsEmpty(old(Retry(expired)).value) ==>
                (r == Accepted <==>
                 || CheckPasses(old(First(expired)).value, old(sig.unread), old(message.unread), opts, h)
                 || (&& CannotStart(old(First(expired)).value, opts, h)
                     && CheckPasses(old(Retry(expired)).value, old(sig.unread), old(message.unread), opts, h)))
      ensures kms.requests <= old(kms.requests) + 2
    {
      var crv := GetCKV(expired);
      if crv.None? {
        return Transient;
      }
      DigestFacts(crv.value, message.unread, opts, h);
      AcceptsIsCheck(crv.value, sig.unread, message.unread, opts, h);
      var ok := VerifySignature(crv.value, sig, message, opts, h);
      if !ok {
        if version == "" {
          kvCache := None;
          crv := GetCKV(false);
          if crv.None? {
            return Transient;
          }
          AcceptsIsCheck(crv.value, old(sig.unread), old(message.unread), opts, h);
          ok := VerifySignature(crv.value, sig, message, opts, h);
          return if ok then Accepted else Rejected;
        }
        return Rejected;
      }
      return Accepted;
    }
  }

  // ----- what a retry is worth

  // Two unpinned calls that differ only in whether the signature can be read again, over a message that can.
  // They end differently exactly on signatures that the rotated-in version accepts and the old one does not,
  // unless the old one could not even start.
  lemma OneShotLosesRotation(c: Client, answer: nat -> Option<KeyVersion>, i: Input, h: HashFunctions)
    requires i.messageRewinds
    requires var c1 := Load(c, false, answer, i.expired);
             c1.cache.Some? && answer(c1.requests).Some? && RejectsEmpty(answer(c1.requests).value)
    ensures var c1 := Load(c, false, answer, i.expired);
            var first, retry := c1.cache.value, answer(c1.requests).value;
            (VerifyStep(c, false, answer, i.(sigRewinds := false), h).1
             != VerifyStep(c, false, answer, i.(sigRewinds := true), h).1)
            <==> && !CheckPasses(first, i.sig, i.message, i.opts, h) && !CannotStart(first, i.opts, h)
                 && CheckPasses(retry, i.sig, i.message, i.opts, h)
  {
    var c1 := Load(c, false, answer, i.expired);
    DigestFacts(c1.cache.value, i.message, i.opts, h);
    AcceptsIsCheck(c1.cache.value, i.sig, i.message, i.opts, h);
    AcceptsIsCheck(answer(c1.requests).value, i.sig, i.message, i.opts, h);
  }

  // A rotation that is noticed or lost: the old version rejects everything, the new one accepts one
  // signature on the digest of the message.
  lemma LostRotationExample(message: bytes, h: HashFunctions)
    ensures var before := KeyVersion(SHA256, None, (d, s) => false);
            var after := KeyVersion(SHA256, None, (d: bytes, s: bytes) => d == h.sum(SHA256, message) && s == [1]);
            var c := Client(Some(before), 0);
            var i := Input([1], message, true, true, [], false);
            && VerifyStep(c, false, n => Some(after), i, h).1 == Accepted
            && VerifyStep(c, false, n => Some(after), i.(sigRewinds := false), h).1 == Rejected
  {
    var before := KeyVersion(SHA256, None, (d, s) => false);
    var after := KeyVersion(SHA256, None, (d: bytes, s: bytes) => d == h.sum(SHA256, message) && s == [1]);
    DigestFacts(before, message, [], h);
    AcceptsIsCheck(before, [1], message, [], h);
    AcceptsIsCheck(after, [1], message, [], h);
    AcceptsIsCheck(after, [], message, [], h);
  }

  // ----- requests over any sequence of calls

  function Count(o: Option<KeyVersion>): nat {
    if o.Some? then 1 else 0
  }

  function Calls(c: Client, pinned: bool, answer: nat -> Option<KeyVersion>, inputs: seq<Input>,
                 h: HashFunctions): Client
    decreases |inputs|
  {
    if inputs == [] then c else Calls(VerifyStep(c, pinned, answer, inputs[0], h).0, pinned, answer, inputs[1..], h)
  }

  // The calls that ended because a request was not answered.
  function Transients(c: Client, pinned: bool, answer: nat -> Option<KeyVersion>, inputs: seq<Input>,
                      h: HashFunctions): (n: nat)
    ensures n <= |inputs|
    decreases |inputs|
  {
    if inputs == [] then 0
    else
      var (c', r) := VerifyStep(c, pinned, answer, inputs[0], h);
      (if r == Transient then 1 else 0) + Transients(c', pinned, answer, inputs[1..], h)
  }

  // The cached versions thrown away by one call: one that expired, and one that rejected.
  function Dropped(c: Client, pinned: bool, answer: nat -> Option<KeyVersion>, i: Input, h: HashFunctions): nat {
    if pinned then 0
    else
      var c1 := Load(c, pinned, answer, i.expired);
      (if i.expired then Count(c.cache) else 0)
      + (if c1.cache.Some? && !Accepts(c1.cache.value, i.sig, i.message, i.opts, h) then 1 else 0)
  }

  function AllDropped(c: Client, pinned: bool, answer: nat -> Option<KeyVersion>, inputs: seq<Input>,
                      h: HashFunctions): nat
    decreases |inputs|
  {
    if inputs == [] then 0
    else
      Dropped(c, pinned, answer, inputs[0], h)
      + AllDropped(VerifyStep(c, pinned, answer, inputs[0], h).0, pinned, answer, inputs[1..], h)
  }

  lemma StepAccounts(c: Client, pinned: bool, answer: nat -> Option<KeyVersion>, i: Input, h: HashFunctions)
    ensures var (c', r) := VerifyStep(c, pinned, answer, i, h);
            c'.requests + Count(c.cache) ==
            c.requests + Count(c'.cache) + Dropped(c, pinned, answer, i, h) + if r == Transient then 1 else 0
  {
    hide Accepts, RetryAccepts;
  }

  // Conservation: every request is accounted for by a version in the cache, one thrown away, or a call
  // that ended without an answer.
  lemma {:induction false} RequestsAccounted(c: Client, pinned: bool, answer: nat -> Option<KeyVersion>,
                                             inputs: seq<Input>,
                                             h: HashFunctions)
    ensures Calls(c, pinned, answer, inputs, h).requests + Count(c.cache) ==
            c.requests + Count(Calls(c, pinned, answer, inputs, h).cache)
            + AllDropped(c, pinned, answer, inputs, h) + Transients(c, pinned, answer, inputs, h)
    decreases |inputs|
  {
    hide VerifyStep, Dropped;
    if inputs == [] {
    } else {
      StepAccounts(c, pinned, answer, inputs[0], h);
      RequestsAccounted(VerifyStep(c, pinned, answer, inputs[0], h).0, pinned, answer, inputs[1..], h);
    }
  }

  lemma {:induction false} PinnedDropsNothing(c: Client, answer: nat -> Option<KeyVersion>, inputs: seq<Input>,
                                              h: HashFunctions)
    ensures AllDropped(c, true, answer, inputs, h) == 0
    decreases |inputs|
  {
    if inputs == [] {
    } else {
      PinnedDropsNothing(VerifyStep(c, true, answer, inputs[0], h).0, answer, inputs[1..], h);
    }
  }

  // A pinned client is answered at most once, ever.
  lemma PinnedIsAnsweredOnce(c: Client, answer: nat -> Option<KeyVersion>, inputs: seq<Input>, h: HashFunctions)
    ensures var n := Calls(c, true, answer, inputs, h).requests - c.requests;
            Transients(c, true, answer, inputs, h) <= n + Count(c.cache) <= Transients(c, true, answer, inputs, h) + 1
  {
    RequestsAccounted(c, true, answer, inputs, h);
    PinnedDropsNothing(c, answer, inputs, h);
  }
}
