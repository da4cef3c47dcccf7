/** pkg/tuf/client.go: the target cache, a map in memory in front of files on disk. */
module TufCache {
  import opened Wrappers
  import opened Bytes

  // How writing a file can end. A torn write leaves something else behind.
  datatype WriteOutcome = Written | Unwritten | Torn(left: bytes)

  // The content of both layers.
  datatype Layers = Layers(memory: map<string, bytes>, files: map<string, bytes>)

  function Lookup<T>(m: map<string, T>, key: string): Option<T> {
    if key in m then Some(m[key]) else None
  }

  function GetFrom(l: Layers, path: string -> string, name: string): Option<bytes> {
    if name in l.memory then Some(l.memory[name]) else Lookup(l.files, path(name))
  }

  function WriteFile(files: map<string, bytes>, path: string, b: bytes, w: WriteOutcome): map<string, bytes> {
    match w
    case Written => files[path := b]
    case Unwritten => files
    case Torn(left) => files[path := left]
  }

  function SetIn(l: Layers, path: string -> string, name: string, b: bytes, w: WriteOutcome): Layers {
    Layers(l.memory[name := b], WriteFile(l.files, path(name), b, w))
  }

  class FileSystem {
    var files: map<string, bytes>

    constructor (files: map<string, bytes>)
      ensures this.files == files
    {
      this.files := files;
    }

    method ReadFile(path: string) returns (r: Option<bytes>)
      ensures r == Lookup(files, path)
    {
      r := if path in files then Some(files[path]) else None;
    }

    // The environment chooses how the write ends.
    method Write(path: string, b: bytes, w: WriteOutcome) returns (ok: bool)
      modifies this
      ensures files == WriteFile(old(files), path, b, w)
      ensures ok == w.Written?
    {
      match w {
        case Written => files := files[path := b];
        case Unwritten =>
        case Torn(left) => files := files[path := left];
      }
      ok := w.Written?;
    }
  }

  // A nil map and an empty one answer every Get the same way.
  class MemoryCache {
    var targets: map<string, bytes>

    constructor ()
      ensures targets == map[]
    {
      targets := map[];
    }

    method Set(p: string, b: bytes)
      modifies this
      ensures targets == old(targets)[p := b]
    {
      targets := targets[p := b];
    }

    method Get(p: string) returns (r: Option<bytes>)
      ensures r == Lookup(targets, p)
    {
      r := if p in targets then Some(targets[p]) else None;
    }
  }

  class DiskCache {
    const path: string -> string
    const memory: MemoryCache
    const fs: FileSystem

    constructor (path: string -> string, fs: FileSystem)
      ensures this.path == path && this.fs == fs && fresh(memory)
      ensures Content() == Layers(map[], fs.files)
    {
      this.path := path;
      this.fs := fs;
      memory := new MemoryCache();
    }

    ghost function Content(): Layers
      reads this, memory, fs
    {
      Layers(memory.targets, fs.files)
    }

    method Get(p: string) returns (r: Option<bytes>)
      ensures r == GetFrom(Content(), path, p)
    {
      r := memory.Get(p);
      if r.None? {
        r := fs.ReadFile(path(p));
      }
    }

    // The memory keeps the value even when the file could not be written.
    method Set(p: string, b: bytes, w: WriteOutcome) returns (ok: bool)
      modifies memory, fs
      ensures Content() == SetIn(old(Content()), path, p, b, w)
      ensures ok == w.Written?
    {
      memory.Set(p, b);
      ok := fs.Write(path(p), b, w);
    }
  }

  // ----- runs of the cache

  datatype Op = SetOp(name: string, b: bytes, w: WriteOutcome) | Restart

  function Step(l: Layers, path: string -> string, op: Op): Layers {
    match op
    case SetOp(name, b, w) => SetIn(l, path, name, b, w)
    case Restart => Layers(map[], l.files)
  }

  function Run(l: Layers, path: string -> string, ops: seq<Op>): Layers
    decreases |ops|
  {
    if ops == [] then l else Run(Step(l, path, ops[0]), path, ops[1..])
  }

  // The value last passed to Set for a name.
  function LastSet(ops: seq<Op>, name: string): Option<bytes> {
    if ops == [] then None
    else if LastSet(ops[1..], name).Some? then LastSet(ops[1..], name)
    else if ops[0].SetOp? && ops[0].name == name then Some(ops[0].b)
    else None
  }

  lemma {:induction false} MemoryIsLastSet(l: Layers, path: string -> string, ops: seq<Op>, name: string)
    requires forall i :: 0 <= i < |ops| ==> ops[i].SetOp?
    ensures Lookup(Run(l, path, ops).memory, name) ==
            if LastSet(ops, name).Some? then LastSet(ops, name) else Lookup(l.memory, name)
    decreases |ops|
  {
    if ops == [] {
    } else {
      MemoryIsLastSet(Step(l, path, ops[0]), path, ops[1..], name);
    }
  }

  // Within a process, Get returns what was last passed to Set, even if its write failed and whatever
  // other names do to the same file.
  lemma GetIsLastSet(l: Layers, path: string -> string, ops: seq<Op>, name: string)
    requires forall i :: 0 <= i < |ops| ==> ops[i].SetOp?
    requires LastSet(ops, name).Some?
    ensures GetFrom(Run(l, path, ops), path, name) == LastSet(ops, name)
  {
    MemoryIsLastSet(l, path, ops, name);
  }

  // ----- the plain map it stands for: a current value and a durable value for each name

  datatype Plain = Plain(current: map<string, bytes>, durable: map<string, bytes>)

  function PlainStep(m: Plain, op: Op): Plain {
    match op
    case SetOp(name, b, w) =>
      Plain(m.current[name := b], if w.Written? then m.durable[name := b] else m.durable)
    case Restart => Plain(m.durable, m.durable)
  }

  function PlainRun(m: Plain, ops: seq<Op>): Plain
    decreases |ops|
  {
    if ops == [] then m else PlainRun(PlainStep(m, ops[0]), ops[1..])
  }

  predicate Represents(l: Layers, path: string -> string, m: Plain, names: set<string>) {
    forall n :: n in names ==>
      && GetFrom(l, path, n) == Lookup(m.current, n)
      && Lookup(l.files, path(n)) == Lookup(m.durable, n)
  }

  predicate DistinctPaths(path: string -> string, names: set<string>) {
    forall a, b :: a in names && b in names && a != b ==> path(a) != path(b)
  }

  // Writes of these names only, none of them torn.
  predicate Tame(ops: seq<Op>, names: set<string>) {
    forall i :: 0 <= i < |ops| ==> ops[i].SetOp? ==> ops[i].name in names && !ops[i].w.Torn?
  }

  // Over any run of writes and restarts the cache answers like the plain map.
  lemma {:induction false} CacheRefinesMap(l: Layers, path: string -> string, m: Plain, ops: seq<Op>,
                                           names: set<string>)
    requires DistinctPaths(path, names) && Tame(ops, names)
    requires Represents(l, path, m, names)
    ensures Represents(Run(l, path, ops), path, PlainRun(m, ops), names)
    decreases |ops|
  {
    if ops == [] {
    } else {
      assert Represents(Step(l, path, ops[0]), path, PlainStep(m, ops[0]), names);
      CacheRefinesMap(Step(l, path, ops[0]), path, PlainStep(m, ops[0]), ops[1..], names);
    }
  }

  lemma OneStep(l: Layers, path: string -> string, m: Plain, op: Op)
    ensures Run(l, path, [op]) == Step(l, path, op)
    ensures PlainRun(m, [op]) == PlainStep(m, op)
  {
    assert [op][1..] == [];
    assert Run(Step(l, path, op), path, []) == Step(l, path, op);
    assert PlainRun(PlainStep(m, op), []) == PlainStep(m, op);
  }

  // Setting one of two names of one path makes Get of the other, never set, return its value.
  lemma SharedPathShows(path: string -> string, names: set<string>, a: string, b: string)
    requires a in names && b in names && a != b && path(a) == path(b)
    ensures var ops := [SetOp(a, [], Written)];
            && Tame(ops, names)
            && GetFrom(Run(Layers(map[], map[]), path, ops), path, b) == Some([])
            && Lookup(PlainRun(Plain(map[], map[]), ops).current, b) == None
  {
    var op := SetOp(a, [], Written);
    OneStep(Layers(map[], map[]), path, Plain(map[], map[]), op);
    var l, m := Step(Layers(map[], map[]), path, op), PlainStep(Plain(map[], map[]), op);
    assert GetFrom(l, path, b) == Some([]) && Lookup(m.current, b) == None;
  }

  // An empty cache answers every get like an empty map, over all runs, exactly when no two names share a path.
  lemma CacheRefinesMapIff(path: string -> string, names: set<string>)
    ensures (forall ops, n :: Tame(ops, names) && n in names ==>
               GetFrom(Run(Layers(map[], map[]), path, ops), path, n) ==
                 Lookup(PlainRun(Plain(map[], map[]), ops).current, n))
            <==> DistinctPaths(path, names)
  {
    var l, m := Layers(map[], map[]), Plain(map[], map[]);
    if DistinctPaths(path, names) {
      forall ops, n | Tame(ops, names) && n in names
        ensures GetFrom(Run(l, path, ops), path, n) == Lookup(PlainRun(m, ops).current, n)
      {
        CacheRefinesMap(l, path, m, ops, names);
      }
    } else {
      var a, b :| a in names && b in names && a != b && path(a) == path(b);
      SharedPathShows(path, names, a, b);
      var ops := [SetOp(a, [], Written)];
      assert Tame(ops, names) && b in names;
      assert GetFrom(Run(l, path, ops), path, b) != Lookup(PlainRun(m, ops).current, b);
    }
  }

  // Two names of one path: after a restart both return what was written last, which is wrong for the first.
  lemma SharedPathExample(path: string -> string, x: bytes, y: bytes)
    requires path("a") == path("./a") && x != y
    ensures var ops := [SetOp("a", x, Written), SetOp("./a", y, Written), Restart];
            && GetFrom(Run(Layers(map[], map[]), path, ops), path, "a") == Some(y)
            && GetFrom(Run(Layers(map[], map[]), path, ops), path, "./a") == Some(y)
            && Lookup(PlainRun(Plain(map[], map[]), ops).current, "a") == Some(x)
  {
    var first, second := SetOp("a", x, Written), SetOp("./a", y, Written);
    var ops := [first, second, Restart];
    assert "a" != "./a" by {
      assert |"a"| != |"./a"|;
    }
    assert ops[1..] == [second, Restart] && ops[1..][1..] == [Restart] && ops[1..][1..][1..] == [];
    var l := Step(Step(Layers(map[], map[]), path, first), path, second);
    assert Run(Layers(map[], map[]), path, ops) == Run(l, path, [Restart]) == Layers(map[], l.files);
    var m := PlainStep(PlainStep(Plain(map[], map[]), first), second);
    assert PlainRun(Plain(map[], map[]), ops) == PlainRun(m, [Restart]) == Plain(m.durable, m.durable);
  }
}
