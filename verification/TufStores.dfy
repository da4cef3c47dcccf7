/** pkg/tuf/client.go, syncLocalMeta: the metadata roles of one local store copied into another, one write at
    a time and in any order. */
module TufStores {
  import opened Wrappers
  import opened Bytes
  import opened TufCache
  import opened TufClient

  type Roles = map<string, bytes>

  // The roles after copying in this order, up to the first write that fails.
  function CopyRoles(from: Roles, to: Roles, order: seq<string>, write: string -> WriteOutcome): (Roles, bool)
    requires forall i :: 0 <= i < |order| ==> order[i] in from
    decreases |order|
  {
    if order == [] then (to, true)
    else
      var to' := WriteFile(to, order[0], from[order[0]], write(order[0]));
      if !write(order[0]).Written? then (to', false) else CopyRoles(from, to', order[1..], write)
  }

  class RoleStore {
    var roles: Roles

    constructor (roles: Roles)
      ensures this.roles == roles
    {
      this.roles := roles;
    }

    method SetMeta(name: string, meta: bytes, w: WriteOutcome) returns (ok: bool)
      modifies this
      ensures roles == WriteFile(old(roles), name, meta, w)
      ensures ok == w.Written?
    {
      match w {
        case Written => roles := roles[name := meta];
        case Unwritten =>
        case Torn(left) => roles := roles[name := left];
      }
      ok := w.Written?;
    }
  }

  method SyncLocalMeta(from: RoleStore, to: RoleStore, readable: bool, order: seq<string>,
                       write: string -> WriteOutcome)
    returns (ok: bool)
    requires from != to && Enumerates(order, from.roles.Keys)
    modifies to
    ensures !readable ==> !ok && to.roles == old(to.roles)
    ensures readable ==> (to.roles, ok) == CopyRoles(from.roles, old(to.roles), order, write)
  {
    if !readable {
      return false;
    }
    ghost var whole := CopyRoles(from.roles, to.roles, order, write);
    assert order[0..] == order;
    for i := 0 to |order|
      invariant from.roles == old(from.roles)
      invariant whole == CopyRoles(from.roles, to.roles, order[i..], write)
    {
      assert order[i..][1..] == order[i + 1..];
      ok := to.SetMeta(order[i], from.roles[order[i]], write(order[i]));
      if !ok {
        return false;
      }
    }
    ok := true;
  }

  // Copying in any order keeps every role outside the order, and a role it reaches without an error is
  // the source's.
  lemma {:induction false} CopyIsLocal(from: Roles, to: Roles, order: seq<string>, write: string -> WriteOutcome,
                                       name: string)
    requires forall i :: 0 <= i < |order| ==> order[i] in from
    ensures var (to', ok) := CopyRoles(from, to, order, write);
            && (name !in order ==> Lookup(to', name) == Lookup(to, name))
            && (name in order && ok ==> Lookup(to', name) == Some(from[name]))
            && (name in order && write(name).Unwritten? ==> Lookup(to', name) in {Lookup(to, name), Some(from[name])})
    decreases |order|
  {
    if order == [] {
    } else {
      var to1 := WriteFile(to, order[0], from[order[0]], write(order[0]));
      assert order == [order[0]] + order[1..];
      CopyIsLocal(from, to1, order[1..], write, name);
    }
  }

  // A copy ends well exactly when every write does.
  lemma {:induction false} CopyEndsWellIff(from: Roles, to: Roles, order: seq<string>, write: string -> WriteOutcome)
    requires forall i :: 0 <= i < |order| ==> order[i] in from
    ensures CopyRoles(from, to, order, write).1 <==> forall i :: 0 <= i < |order| ==> write(order[i]).Written?
    decreases |order|
  {
    if order == [] {
    } else {
      CopyEndsWellIff(from, WriteFile(to, order[0], from[order[0]], write(order[0])), order[1..], write);
      assert forall i :: 0 <= i < |order| ==> order[i] == if i == 0 then order[0] else order[1..][i - 1];
    }
  }

  // A sync that ends well is the merge of the two stores, whatever the iteration order: nothing is deleted.
  lemma SyncIsMerge(from: Roles, to: Roles, order: seq<string>, write: string -> WriteOutcome)
    requires Enumerates(order, from.Keys) && CopyRoles(from, to, order, write).1
    ensures CopyRoles(from, to, order, write).0 == to + from
  {
    var to' := CopyRoles(from, to, order, write).0;
    forall name
      ensures Lookup(to', name) == Lookup(to + from, name)
    {
      CopyIsLocal(from, to, order, write, name);
    }
    MapsAreEqual(to', to + from);
  }

  lemma MapsAreEqual(a: Roles, b: Roles)
    requires forall name :: Lookup(a, name) == Lookup(b, name)
    ensures a == b
  {
    forall name
      ensures name in a <==> name in b
      ensures name in a ==> a[name] == b[name]
    {
      assert Lookup(a, name) == Lookup(b, name);
    }
  }

  // Whatever a failed sync left half way, torn writes included, a later one that ends well repairs.
  lemma LaterSyncRepairs(from: Roles, to: Roles, order1: seq<string>, write1: string -> WriteOutcome,
                         order2: seq<string>, write2: string -> WriteOutcome)
    requires Enumerates(order1, from.Keys) && Enumerates(order2, from.Keys)
    requires CopyRoles(from, CopyRoles(from, to, order1, write1).0, order2, write2).1
    ensures CopyRoles(from, CopyRoles(from, to, order1, write1).0, order2, write2).0 == to + from
  {
    var half := CopyRoles(from, to, order1, write1).0;
    SyncIsMerge(from, half, order2, write2);
    forall name
      ensures Lookup(half + from, name) == Lookup(to + from, name)
    {
      CopyIsLocal(from, to, order1, write1, name);
    }
    MapsAreEqual(half + from, to + from);
  }

  // ----- the copy as the client sees it

  // read is what a new client would take from a store; the outcome of an update's copy, said with it.
  function Realized(from: Roles, to: Roles, order: seq<string>, write: string -> WriteOutcome,
                    read: Roles -> Option<Targets>): SyncOutcome
    requires forall i :: 0 <= i < |order| ==> order[i] in from
  {
    var (to', ok) := CopyRoles(from, to, order, write);
    if ok then Synced else SyncFailed(read(to'))
  }

  // If the copied roles say what the update trusts, whatever older roles stand beside them, then the copy
  // leaves on disk exactly what the client's model of an update leaves there, and fails when it does.
  lemma CopyRealizesUpdate(s: Store, u: UpdateChoice, from: Roles, to: Roles, order: seq<string>,
                           write: string -> WriteOutcome, read: Roles -> Option<Targets>)
    requires Enumerates(order, from.Keys) && u.update.Updated?
    requires forall older: Roles :: read(older + from) == Some(u.update.targets)
    requires u.sync == Realized(from, to, order, write, read)
    ensures var (s', ok) := UpdateMeta(s, true, u);
            s'.db == read(CopyRoles(from, to, order, write).0) && ok == CopyRoles(from, to, order, write).1
  {
    if CopyRoles(from, to, order, write).1 {
      SyncIsMerge(from, to, order, write);
    }
  }
}
