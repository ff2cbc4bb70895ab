/** The idempotency guard over its real data: a map of mutable lock entries shared by the callers. Each
    critical section is a method, proved to be the step of module KeyLock that bears on it. */
module IdempotencyGuard {
  import opened Common
  import KeyLock

  class Entry {
    var owner: Option<nat>
    var refs: int

    constructor ()
      ensures owner == None && refs == 0
    {
      owner, refs := None, 0;
    }
  }

  class Guard {
    var locks: map<string, Entry>
    ghost var entries: seq<Entry>
    ghost var ids: map<string, nat>

    /** Every entry ever made is listed once; ids names the one that locks holds for a key. */
    ghost predicate Valid()
      reads this
    {
      && Distinct(entries)
      && ids.Keys == locks.Keys
      && forall key :: key in locks ==> ids[key] < |entries| && entries[ids[key]] == locks[key]
    }

    /** The lock table and the entries of a state are these. */
    ghost predicate Shows(s: KeyLock.State)
      reads this, entries
    {
      && s.locks == ids && |s.heap| == |entries|
      && forall i :: 0 <= i < |entries| ==> s.heap[i] == KeyLock.Entry(entries[i].owner, entries[i].refs)
    }

    constructor ()
      ensures Valid() && Shows(KeyLock.Start)
    {
      locks, entries, ids := map[], [], map[];
    }

    /** acquire, first critical section: find or create the entry of the key and count the caller. */
    method Count(key: string, ghost s: KeyLock.State, ghost c: nat) returns (e: Entry, ghost id: nat)
      requires Valid() && Shows(s) && c in s.calls && s.calls[c].request.key == key
      modifies this, entries
      ensures Valid() && Shows(KeyLock.Register(s, c))
      ensures id < |entries| && e == entries[id] && KeyLock.Register(s, c).calls[c].pc == KeyLock.Waiting(id)
    {
      e, id := FindOrCreate(key);
      ghost var t := KeyLock.Register(s, c);
      assert t.locks == ids && |t.heap| == |entries| && t.calls[c].pc == KeyLock.Waiting(id);
      assert t.heap[id] == KeyLock.Entry(e.owner, e.refs + 1);
      assert forall i :: 0 <= i < |entries| && i != id ==>
        entries[i] != e && t.heap[i] == KeyLock.Entry(entries[i].owner, entries[i].refs);
      e.refs := e.refs + 1;
    }

    /** The entry of the key, made if there is none. */
    method FindOrCreate(key: string) returns (e: Entry, ghost id: nat)
      requires Valid()
      modifies this
      ensures Valid() && id < |entries| && e == entries[id]
      ensures ids == old(ids)[key := id] && (key in old(ids) ==> ids == old(ids))
      ensures if key in old(ids) then entries == old(entries)
              else fresh(e) && e.owner == None && e.refs == 0 && id == |old(entries)| && entries == old(entries) + [e]
    {
      if key in locks {
        e := locks[key];
        id := ids[key];
      } else {
        e := new Entry();
        id := |entries|;
        entries := entries + [e];
        ids := ids[key := id];
        locks := locks[key := e];
      }
    }

    /** acquire, second part: take the entry's mutex if it is free; otherwise the caller goes on waiting. */
    method TryLock(e: Entry, caller: nat, ghost s: KeyLock.State, ghost id: nat) returns (locked: bool)
      requires Valid() && Shows(s) && id < |entries| && e == entries[id]
      requires caller in s.calls && s.calls[caller].pc == KeyLock.Waiting(id)
      modifies e
      ensures Valid() && Shows(KeyLock.TakeMutex(s, caller))
      ensures locked <==> KeyLock.TakeMutex(s, caller).calls[caller].pc == KeyLock.Checking(id)
    {
      locked := e.owner.None?;
      if locked { e.owner := Some(caller); }
    }

    /** The release closure, first part: let go of the entry's mutex. */
    method Unlock(e: Entry, ghost s: KeyLock.State, ghost c: nat, ghost id: nat)
      requires Valid() && Shows(s) && id < |entries| && e == entries[id]
      requires c in s.calls && s.calls[c].pc.Unlocking? && s.calls[c].pc.entry == id
      modifies e
      ensures Valid() && Shows(KeyLock.ReleaseMutex(s, c))
    {
      e.owner := None;
    }

    /** The release closure, second critical section: uncount the caller, and free the entry after the last. */
    method Uncount(key: string, e: Entry, ghost s: KeyLock.State, ghost c: nat, ghost id: nat)
      requires Valid() && Shows(s) && id < |entries| && e == entries[id]
      requires c in s.calls && s.calls[c].request.key == key && s.calls[c].pc.Dropping? && s.calls[c].pc.entry == id
      modifies this, e
      ensures Valid() && Shows(KeyLock.Deregister(s, c))
    {
      e.refs := e.refs - 1;
      if e.refs == 0 {
        locks := locks - {key};
        ids := ids - {key};
      }
    }
  }
}
