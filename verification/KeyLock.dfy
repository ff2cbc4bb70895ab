/** The UCP service's idempotency guard and the request protocol built on it.

    Any number of calls run concurrently. `g.mu` makes each of the two accesses to the lock
    table one step; taking and releasing an entry's own mutex, each database statement and the
    run of the guarded function are one step each. A schedule is any sequence of steps; a step
    that is not enabled leaves the state alone, so a statement about every schedule is a
    statement about every interleaving. */
module KeyLock {
  import opened Common

  /** An idempotency key after trimming; the empty key means that none was sent. */
  type Key = string
  type CallId = nat
  type EntryId = nat
  type Body = string

  datatype Request = Request(key: Key, operation: string, requestHash: string)
  datatype Result = Success(body: Body) | Conflict | Failed

  /** A lock entry: who holds its mutex, and its reference count. */
  datatype Entry = Entry(owner: Option<CallId>, refs: int)

  datatype Pc =
    | Arrived
    | RunningUnkeyed
    | Waiting(entry: EntryId)
    | Checking(entry: EntryId)
    | Running(entry: EntryId)
    | Recording(entry: EntryId, body: Body)
    | Unlocking(entry: EntryId, result: Result)
    | Dropping(entry: EntryId, result: Result)
    | Returned(result: Result)

  datatype Call = Call(request: Request, pc: Pc)
  datatype Record = Record(operation: string, requestHash: string, body: Body)

  /** What the outside world can observe: a run of the guarded function, or a recorded response. */
  datatype Event = Ran(key: Key, call: CallId) | Recorded(key: Key, record: Record)

  datatype State = State(
    locks: map<Key, EntryId>,
    heap: seq<Entry>,
    calls: map<CallId, Call>,
    table: map<Key, Record>,
    log: seq<Event>)

  datatype Action =
    | Arrive(c: CallId, request: Request)
    | Enter(c: CallId)
    | Lock(c: CallId)
    | Read(c: CallId, readable: bool)
    | Run(c: CallId, outcome: Option<Body>)
    | Insert(c: CallId, reply: DbReply)
    | Unlock(c: CallId)
    | Drop(c: CallId)

  const Start := State(map[], [], map[], map[], [])

  function Goto(s: State, c: CallId, pc: Pc): State
    requires c in s.calls
  {
    s.(calls := s.calls[c := s.calls[c].(pc := pc)])
  }

  /** First half of acquire: find or create the entry and count this caller, under g.mu. */
  function Register(s: State, c: CallId): State
    requires c in s.calls
  {
    var key := s.calls[c].request.key;
    if key in s.locks && s.locks[key] < |s.heap| then
      var e := s.locks[key];
      Goto(s.(heap := s.heap[e := s.heap[e].(refs := s.heap[e].refs + 1)]), c, Waiting(e))
    else
      var e := |s.heap|;
      Goto(s.(heap := s.heap + [Entry(None, 1)], locks := s.locks[key := e]), c, Waiting(e))
  }

  /** Second half of acquire: take the entry's mutex once nobody holds it. */
  function TakeMutex(s: State, c: CallId): State
    requires c in s.calls && s.calls[c].pc.Waiting?
  {
    var e := s.calls[c].pc.entry;
    if e < |s.heap| && s.heap[e].owner.None?
    then Goto(s.(heap := s.heap[e := s.heap[e].(owner := Some(c))]), c, Checking(e)) else s
  }

  /** The answer for a key that already has a record. */
  function Replay(record: Record, request: Request): Result {
    if record.operation != request.operation || record.requestHash != request.requestHash
    then Conflict else Success(record.body)
  }

  function LookUp(s: State, c: CallId, readable: bool): State
    requires c in s.calls && s.calls[c].pc.Checking?
  {
    var Call(request, Checking(e)) := s.calls[c];
    if !readable then Goto(s, c, Unlocking(e, Failed))
    else if request.key in s.table then Goto(s, c, Unlocking(e, Replay(s.table[request.key], request)))
    else Goto(s, c, Running(e))
  }

  function RunGuarded(s: State, c: CallId, outcome: Option<Body>): State
    requires c in s.calls && s.calls[c].pc.Running?
  {
    var Call(request, Running(e)) := s.calls[c];
    Goto(s.(log := s.log + [Ran(request.key, c)]), c,
         if outcome.Some? then Recording(e, outcome.value) else Unlocking(e, Failed))
  }

  function RunUnkeyed(s: State, c: CallId, outcome: Option<Body>): State
    requires c in s.calls
  {
    Goto(s.(log := s.log + [Ran(s.calls[c].request.key, c)]), c,
         Returned(if outcome.Some? then Success(outcome.value) else Failed))
  }

  /** Insert the record; the table's unique key refuses a second one. */
  function RecordResponse(s: State, c: CallId, reply: DbReply): State
    requires c in s.calls && s.calls[c].pc.Recording?
  {
    var Call(request, Recording(e, body)) := s.calls[c];
    if reply.Refused? || request.key in s.table then Goto(s, c, Unlocking(e, Failed)) else
      var record := Record(request.operation, request.requestHash, body);
      Goto(s.(table := s.table[request.key := record], log := s.log + [Recorded(request.key, record)]),
           c, Unlocking(e, if reply.Applied? then Success(body) else Failed))
  }

  /** First half of the release closure. */
  function ReleaseMutex(s: State, c: CallId): State
    requires c in s.calls && s.calls[c].pc.Unlocking?
  {
    var Unlocking(e, result) := s.calls[c].pc;
    if e < |s.heap| then Goto(s.(heap := s.heap[e := s.heap[e].(owner := None)]), c, Dropping(e, result)) else s
  }

  /** Second half of the release closure: uncount this caller and free the entry, under g.mu. */
  function Deregister(s: State, c: CallId): State
    requires c in s.calls && s.calls[c].pc.Dropping?
  {
    var Call(request, Dropping(e, result)) := s.calls[c];
    if e >= |s.heap| then s else
      var refs := s.heap[e].refs - 1;
      Goto(s.(heap := s.heap[e := s.heap[e].(refs := refs)],
              locks := if refs == 0 then s.locks - {request.key} else s.locks),
           c, Returned(result))
  }

  function Step(s: State, a: Action): State {
    if a.Arrive? then
      if a.c in s.calls then s else s.(calls := s.calls[a.c := Call(a.request, Arrived)])
    else if a.c !in s.calls then s else
      match (a, s.calls[a.c].pc)
      case (Enter(c), Arrived) =>
        if s.calls[c].request.key == "" then Goto(s, c, RunningUnkeyed) else Register(s, c)
      case (Lock(c), Waiting(_)) => TakeMutex(s, c)
      case (Read(c, readable), Checking(_)) => LookUp(s, c, readable)
      case (Run(c, outcome), Running(_)) => RunGuarded(s, c, outcome)
      case (Run(c, outcome), RunningUnkeyed) => RunUnkeyed(s, c, outcome)
      case (Insert(c, reply), Recording(_, _)) => RecordResponse(s, c, reply)
      case (Unlock(c), Unlocking(_, _)) => ReleaseMutex(s, c)
      case (Drop(c), Dropping(_, _)) => Deregister(s, c)
      case _ => s
  }

  function Exec(s: State, schedule: seq<Action>): State {
    if schedule == [] then s
    else Step(Exec(s, schedule[..|schedule| - 1]), schedule[|schedule| - 1])
  }

  // ---- the invariant

  /** Between its increment and its decrement a call refers to one entry. */
  ghost predicate Uses(pc: Pc, e: EntryId) {
    (pc.Waiting? || pc.Checking? || pc.Running? || pc.Recording? || pc.Unlocking? || pc.Dropping?) && pc.entry == e
  }

  /** From taking the entry's mutex to releasing it. */
  ghost predicate Holds(pc: Pc, e: EntryId) {
    (pc.Checking? || pc.Running? || pc.Recording? || pc.Unlocking?) && pc.entry == e
  }

  /** The calls that are between acquire and release for a key. */
  ghost predicate Inside(s: State, c: CallId, key: Key) {
    c in s.calls && s.calls[c].request.key == key && exists e :: Holds(s.calls[c].pc, e)
  }

  ghost function Users(calls: map<CallId, Call>, e: EntryId): set<CallId> {
    set c | c in calls && Uses(calls[c].pc, e)
  }

  ghost predicate LocksOk(s: State) {
    && (forall k :: k in s.locks ==> s.locks[k] < |s.heap| && s.heap[s.locks[k]].refs > 0)
    && (forall k, l :: k in s.locks && l in s.locks && s.locks[k] == s.locks[l] ==> k == l)
  }

  ghost predicate UsesOk(s: State) {
    forall c: CallId, e: EntryId {:trigger Uses(s.calls[c].pc, e)} :: c in s.calls && Uses(s.calls[c].pc, e) ==>
      var key := s.calls[c].request.key;
      key != "" && key in s.locks && s.locks[key] == e
  }

  ghost predicate CountsOk(s: State) {
    forall e: EntryId :: e < |s.heap| ==> s.heap[e].refs == |Users(s.calls, e)|
  }

  ghost predicate OwnersOk(s: State) {
    && (forall e: EntryId, c: CallId ::
          e < |s.heap| && s.heap[e].owner == Some(c) ==> c in s.calls && Holds(s.calls[c].pc, e))
    && (forall c: CallId, e: EntryId {:trigger Holds(s.calls[c].pc, e)} :: c in s.calls && Holds(s.calls[c].pc, e) ==>
          e < |s.heap| && s.heap[e].owner == Some(c))
  }

  ghost predicate Answered(pc: Pc) {
    (pc.Unlocking? || pc.Dropping? || pc.Returned?) && pc.result.Success?
  }

  ghost predicate CallsOk(s: State) {
    && "" !in s.table
    && (forall c :: c in s.calls && (s.calls[c].pc.Running? || s.calls[c].pc.Recording?) ==>
          s.calls[c].request.key !in s.table)
    && (forall c :: c in s.calls && s.calls[c].request.key != "" && Answered(s.calls[c].pc) ==>
          var Call(request, pc) := s.calls[c];
          && request.key in s.table
          && s.table[request.key] == Record(request.operation, request.requestHash, pc.result.body))
    && (forall c :: c in s.calls && s.calls[c].pc.RunningUnkeyed? ==> s.calls[c].request.key == "")
  }

  ghost predicate LogOk(s: State) {
    && (forall i :: 0 <= i < |s.log| && s.log[i].Recorded? ==>
          s.log[i].key in s.table && s.table[s.log[i].key] == s.log[i].record)
    && (forall k :: k in s.table ==> Recorded(k, s.table[k]) in s.log)
    && (forall i, j :: 0 <= i < j < |s.log| && s.log[i].Recorded? ==> s.log[j].key != s.log[i].key)
  }

  ghost predicate Inv(s: State) {
    LocksOk(s) && UsesOk(s) && CountsOk(s) && OwnersOk(s) && CallsOk(s) && LogOk(s)
  }

  /** Only call c moved, and it kept its request. */
  ghost predicate Moved(s: State, t: State, c: CallId) {
    && c in t.calls && t.calls == s.calls[c := t.calls[c]]
    && (c in s.calls ==> t.calls[c].request == s.calls[c].request)
  }

  lemma UsersAfterGoto(calls: map<CallId, Call>, c: CallId, call: Call, e: EntryId)
    ensures Users(calls[c := call], e) == if Uses(call.pc, e) then Users(calls, e) + {c} else Users(calls, e) - {c}
    ensures (c in calls ==> !Uses(calls[c].pc, e)) ==> c !in Users(calls, e)
  {
  }

  /** Steps that keep every call on the entry it uses keep the reference counts right. */
  lemma CountsKept(s: State, t: State, c: CallId)
    requires CountsOk(s) && UsesOk(s) && Moved(s, t, c) && t.locks == s.locks
    requires |t.heap| == |s.heap| && forall e: EntryId :: e < |s.heap| ==> t.heap[e].refs == s.heap[e].refs
    requires forall e: EntryId :: Uses(t.calls[c].pc, e) <==> c in s.calls && Uses(s.calls[c].pc, e)
    ensures CountsOk(t) && UsesOk(t)
  {
    forall e: EntryId | e < |t.heap| ensures t.heap[e].refs == |Users(t.calls, e)| {
      UsersAfterGoto(s.calls, c, t.calls[c], e);
      assert Users(t.calls, e) == Users(s.calls, e);
    }
  }

  /** Steps that neither take nor release a mutex keep the owners right. */
  lemma OwnersKept(s: State, t: State, c: CallId)
    requires OwnersOk(s) && Moved(s, t, c)
    requires |s.heap| <= |t.heap|
    requires forall e: EntryId :: e < |t.heap| ==> t.heap[e].owner == if e < |s.heap| then s.heap[e].owner else None
    requires forall e: EntryId :: Holds(t.calls[c].pc, e) <==> c in s.calls && Holds(s.calls[c].pc, e)
    ensures OwnersOk(t)
  {
    forall e: EntryId, d: CallId | e < |t.heap| && t.heap[e].owner == Some(d)
      ensures d in t.calls && Holds(t.calls[d].pc, e)
    {
      assert e < |s.heap| && s.heap[e].owner == Some(d);
      assert d in s.calls && Holds(s.calls[d].pc, e);
    }
    forall d: CallId, e: EntryId | d in t.calls && Holds(t.calls[d].pc, e)
      ensures e < |t.heap| && t.heap[e].owner == Some(d)
    {
      assert d in s.calls && Holds(s.calls[d].pc, e);
    }
  }

  ghost predicate Registering(s: State, c: CallId) {
    && LocksOk(s) && UsesOk(s)
    && c in s.calls && s.calls[c].pc.Arrived? && s.calls[c].request.key != ""
  }

  lemma RegisterKeepsLocks(s: State, c: CallId)
    requires Registering(s, c) && CountsOk(s)
    ensures LocksOk(Register(s, c))
  {
    var key := s.calls[c].request.key;
    if key !in s.locks {
      var t := Register(s, c);
      assert t.locks == s.locks[key := |s.heap|] && t.heap == s.heap + [Entry(None, 1)];
      forall k | k in t.locks ensures t.locks[k] < |t.heap| && t.heap[t.locks[k]].refs > 0 {
        if k != key { assert t.heap[t.locks[k]] == s.heap[s.locks[k]]; }
      }
    }
  }

  lemma RegisterKeepsUses(s: State, c: CallId)
    requires Registering(s, c)
    ensures UsesOk(Register(s, c))
  {
    var t, key := Register(s, c), s.calls[c].request.key;
    assert key in t.locks && t.calls[c].pc == Waiting(t.locks[key]);
    assert forall k :: k in s.locks ==> k in t.locks && t.locks[k] == s.locks[k];
    forall d: CallId, e: EntryId | d in t.calls && Uses(t.calls[d].pc, e)
      ensures var k := t.calls[d].request.key; k != "" && k in t.locks && t.locks[k] == e
    {
      if d != c { assert Uses(s.calls[d].pc, e); }
    }
  }

  lemma RegisterKeepsCounts(s: State, c: CallId)
    requires Registering(s, c) && CountsOk(s)
    ensures CountsOk(Register(s, c))
  {
    var t := Register(s, c);
    forall e: EntryId | e < |t.heap| ensures t.heap[e].refs == |Users(t.calls, e)| {
      RegisterKeepsCount(s, c, e);
    }
  }

  lemma RegisterKeepsCount(s: State, c: CallId, e: EntryId)
    requires Registering(s, c) && CountsOk(s) && e < |Register(s, c).heap|
    ensures Register(s, c).heap[e].refs == |Users(Register(s, c).calls, e)|
  {
    var t := Register(s, c);
    UsersAfterGoto(s.calls, c, t.calls[c], e);
    if e == |s.heap| {
      NobodyUsesANewEntry(s, e);
    } else if e != t.calls[c].pc.entry {
      assert Users(t.calls, e) == Users(s.calls, e);
    }
  }

  lemma NobodyUsesANewEntry(s: State, e: EntryId)
    requires LocksOk(s) && UsesOk(s) && e >= |s.heap|
    ensures Users(s.calls, e) == {}
  {
    if c :| c in Users(s.calls, e) {
      assert Uses(s.calls[c].pc, e);
    }
  }

  lemma RegisterKeepsInv(s: State, c: CallId)
    requires Inv(s) && c in s.calls && s.calls[c].pc.Arrived? && s.calls[c].request.key != ""
    ensures Inv(Register(s, c))
  {
    RegisterKeepsLocks(s, c);
    RegisterKeepsUses(s, c);
    RegisterKeepsCounts(s, c);
    RegisterKeepsRest(s, c);
  }

  lemma RegisterKeepsRest(s: State, c: CallId)
    requires Registering(s, c) && OwnersOk(s) && CallsOk(s) && LogOk(s)
    ensures OwnersOk(Register(s, c)) && CallsOk(Register(s, c)) && LogOk(Register(s, c))
  {
    OwnersKept(s, Register(s, c), c);
  }

  ghost predicate Deregistering(s: State, c: CallId) {
    && LocksOk(s) && UsesOk(s) && CountsOk(s)
    && c in s.calls && s.calls[c].pc.Dropping? && s.calls[c].pc.entry < |s.heap|
  }

  lemma DeregisterKeepsCounts(s: State, c: CallId)
    requires Deregistering(s, c)
    ensures CountsOk(Deregister(s, c))
  {
    var t := Deregister(s, c);
    forall e: EntryId | e < |t.heap| ensures t.heap[e].refs == |Users(t.calls, e)| {
      UsersAfterGoto(s.calls, c, t.calls[c], e);
      if e == s.calls[c].pc.entry {
        assert Uses(s.calls[c].pc, e) && c in Users(s.calls, e);
      } else {
        assert Users(t.calls, e) == Users(s.calls, e);
      }
    }
  }

  lemma DeregisterKeepsLocks(s: State, c: CallId)
    requires Deregistering(s, c)
    ensures LocksOk(Deregister(s, c))
  {
    var t, mine := Deregister(s, c), s.calls[c].pc.entry;
    assert Uses(s.calls[c].pc, mine);
    forall k | k in t.locks ensures t.locks[k] < |t.heap| && t.heap[t.locks[k]].refs > 0 {
      assert k in s.locks;
    }
  }

  lemma DeregisterKeepsUses(s: State, c: CallId)
    requires Deregistering(s, c)
    ensures UsesOk(Deregister(s, c))
  {
    var t, mine := Deregister(s, c), s.calls[c].pc.entry;
    assert Uses(s.calls[c].pc, mine);
    DeregisterKeepsCounts(s, c);
    forall d: CallId, e: EntryId | d in t.calls && Uses(t.calls[d].pc, e)
      ensures var k := t.calls[d].request.key; k != "" && k in t.locks && t.locks[k] == e
    {
      assert d != c && Uses(s.calls[d].pc, e);
      if t.heap[mine].refs == 0 {
        assert Users(t.calls, mine) == {};
        assert d !in Users(t.calls, mine);
      }
    }
  }

  lemma DeregisterKeepsInv(s: State, c: CallId)
    requires Inv(s) && c in s.calls && s.calls[c].pc.Dropping?
    ensures Inv(Deregister(s, c))
  {
    assert Uses(s.calls[c].pc, s.calls[c].pc.entry);
    DeregisterKeepsCounts(s, c);
    DeregisterKeepsLocks(s, c);
    DeregisterKeepsUses(s, c);
    DeregisterKeepsRest(s, c);
  }

  lemma DeregisterKeepsRest(s: State, c: CallId)
    requires Deregistering(s, c) && OwnersOk(s) && CallsOk(s) && LogOk(s)
    ensures OwnersOk(Deregister(s, c)) && CallsOk(Deregister(s, c)) && LogOk(Deregister(s, c))
  {
    OwnersKept(s, Deregister(s, c), c);
  }

  /** Two calls inside the same key are the same call. */
  lemma InsideIsExclusive(s: State, c: CallId, d: CallId, key: Key)
    requires UsesOk(s) && OwnersOk(s) && Inside(s, c, key) && Inside(s, d, key)
    ensures c == d
  {
    var e :| Holds(s.calls[c].pc, e);
    var f :| Holds(s.calls[d].pc, f);
    assert Uses(s.calls[c].pc, e) && Uses(s.calls[d].pc, f);
  }

  lemma RecordKeepsInv(s: State, c: CallId, reply: DbReply)
    requires Inv(s) && c in s.calls && s.calls[c].pc.Recording?
    ensures Inv(RecordResponse(s, c, reply))
  {
    var t := RecordResponse(s, c, reply);
    CountsKept(s, t, c);
    OwnersKept(s, t, c);
    RecordKeepsCalls(s, c, reply);
    RecordKeepsLog(s, c, reply);
  }

  lemma RecordKeepsCalls(s: State, c: CallId, reply: DbReply)
    requires UsesOk(s) && OwnersOk(s) && CallsOk(s)
    requires c in s.calls && s.calls[c].pc.Recording?
    ensures CallsOk(RecordResponse(s, c, reply))
  {
    var t := RecordResponse(s, c, reply);
    assert Holds(s.calls[c].pc, s.calls[c].pc.entry) && Uses(s.calls[c].pc, s.calls[c].pc.entry);
    forall d | d in t.calls && (t.calls[d].pc.Running? || t.calls[d].pc.Recording?)
      ensures t.calls[d].request.key !in t.table
    {
      assert Holds(s.calls[d].pc, s.calls[d].pc.entry);
      if s.calls[d].request.key == s.calls[c].request.key { InsideIsExclusive(s, c, d, s.calls[c].request.key); }
    }
  }

  lemma RecordKeepsLog(s: State, c: CallId, reply: DbReply)
    requires LogOk(s) && c in s.calls && s.calls[c].pc.Recording?
    requires s.calls[c].request.key !in s.table
    ensures LogOk(RecordResponse(s, c, reply))
  {
    var t, key := RecordResponse(s, c, reply), s.calls[c].request.key;
    if t.table != s.table {
      var record := t.table[key];
      assert t.log == s.log + [Recorded(key, record)];
      forall k | k in t.table ensures Recorded(k, t.table[k]) in t.log {
        if k == key {
          assert t.log[|s.log|] == Recorded(key, record);
        } else {
          assert Recorded(k, s.table[k]) in s.log;
        }
      }
    }
  }

  lemma TakeMutexKeepsInv(s: State, c: CallId)
    requires Inv(s) && c in s.calls && s.calls[c].pc.Waiting?
    ensures Inv(TakeMutex(s, c))
  {
    var t, e := TakeMutex(s, c), s.calls[c].pc.entry;
    assert Uses(s.calls[c].pc, e);
    if t != s {
      CountsKept(s, t, c);
      TakeMutexKeepsOwners(s, c);
    }
  }

  lemma TakeMutexKeepsOwners(s: State, c: CallId)
    requires OwnersOk(s) && c in s.calls && s.calls[c].pc.Waiting?
    ensures OwnersOk(TakeMutex(s, c))
  {
    var t := TakeMutex(s, c);
    forall d: CallId, f: EntryId | d in t.calls && Holds(t.calls[d].pc, f)
      ensures f < |t.heap| && t.heap[f].owner == Some(d)
    {
      if d != c { assert Holds(s.calls[d].pc, f); }
    }
    forall f: EntryId, d: CallId | f < |t.heap| && t.heap[f].owner == Some(d)
      ensures d in t.calls && Holds(t.calls[d].pc, f)
    {
      if d != c { assert s.heap[f].owner == Some(d); }
    }
  }

  lemma ReleaseMutexKeepsInv(s: State, c: CallId)
    requires Inv(s) && c in s.calls && s.calls[c].pc.Unlocking?
    ensures Inv(ReleaseMutex(s, c))
  {
    assert Uses(s.calls[c].pc, s.calls[c].pc.entry);
    CountsKept(s, ReleaseMutex(s, c), c);
    ReleaseMutexKeepsOwners(s, c);
    ReleaseMutexKeepsRest(s, c);
  }

  lemma ReleaseMutexKeepsRest(s: State, c: CallId)
    requires LocksOk(s) && CallsOk(s) && LogOk(s) && c in s.calls && s.calls[c].pc.Unlocking?
    ensures LocksOk(ReleaseMutex(s, c)) && CallsOk(ReleaseMutex(s, c)) && LogOk(ReleaseMutex(s, c))
  {
  }

  lemma ReleaseMutexKeepsOwners(s: State, c: CallId)
    requires OwnersOk(s) && c in s.calls && s.calls[c].pc.Unlocking?
    ensures OwnersOk(ReleaseMutex(s, c)) && ReleaseMutex(s, c) != s
  {
    var t, e := ReleaseMutex(s, c), s.calls[c].pc.entry;
    assert Holds(s.calls[c].pc, e);
    forall d: CallId, f: EntryId | d in t.calls && Holds(t.calls[d].pc, f)
      ensures f < |t.heap| && t.heap[f].owner == Some(d)
    {
      assert d != c && Holds(s.calls[d].pc, f);
    }
    forall f: EntryId, d: CallId | f < |t.heap| && t.heap[f].owner == Some(d)
      ensures d in t.calls && Holds(t.calls[d].pc, f)
    {
      assert s.heap[f].owner == Some(d);
    }
  }

  lemma LookUpKeepsInv(s: State, c: CallId, readable: bool)
    requires Inv(s) && c in s.calls && s.calls[c].pc.Checking?
    ensures Inv(LookUp(s, c, readable))
  {
    CountsKept(s, LookUp(s, c, readable), c);
    OwnersKept(s, LookUp(s, c, readable), c);
    LookUpKeepsRest(s, c, readable);
  }

  lemma LookUpKeepsRest(s: State, c: CallId, readable: bool)
    requires LocksOk(s) && CallsOk(s) && LogOk(s) && c in s.calls && s.calls[c].pc.Checking?
    ensures LocksOk(LookUp(s, c, readable)) && CallsOk(LookUp(s, c, readable)) && LogOk(LookUp(s, c, readable))
  {
  }

  lemma RunKeepsInv(s: State, c: CallId, outcome: Option<Body>)
    requires Inv(s) && c in s.calls && s.calls[c].pc.Running?
    ensures Inv(RunGuarded(s, c, outcome))
  {
    var t := RunGuarded(s, c, outcome);
    CountsKept(s, t, c);
    OwnersKept(s, t, c);
    LogGrows(s, t, Ran(s.calls[c].request.key, c));
  }

  lemma RunUnkeyedKeepsInv(s: State, c: CallId, outcome: Option<Body>)
    requires Inv(s) && c in s.calls && s.calls[c].pc.RunningUnkeyed?
    ensures Inv(RunUnkeyed(s, c, outcome))
  {
    var t := RunUnkeyed(s, c, outcome);
    CountsKept(s, t, c);
    OwnersKept(s, t, c);
    LogGrows(s, t, Ran(s.calls[c].request.key, c));
  }

  /** A run of the function for a key without a record keeps the log right. */
  lemma LogGrows(s: State, t: State, event: Event)
    requires LogOk(s) && event.Ran? && event.key !in s.table
    requires t.table == s.table && t.log == s.log + [event]
    ensures LogOk(t)
  {
    forall k | k in t.table ensures Recorded(k, t.table[k]) in t.log {
      assert Recorded(k, s.table[k]) in s.log;
    }
  }

  lemma ArriveKeepsInv(s: State, c: CallId, request: Request)
    requires Inv(s) && c !in s.calls
    ensures Inv(Step(s, Arrive(c, request)))
  {
    var t := Step(s, Arrive(c, request));
    CountsKept(s, t, c);
    OwnersKept(s, t, c);
  }

  lemma EnterUnkeyedKeepsInv(s: State, c: CallId)
    requires Inv(s) && c in s.calls && s.calls[c].pc.Arrived? && s.calls[c].request.key == ""
    ensures Inv(Step(s, Enter(c)))
  {
    var t := Step(s, Enter(c));
    CountsKept(s, t, c);
    OwnersKept(s, t, c);
  }

  lemma StepKeepsInv(s: State, a: Action)
    requires Inv(s)
    ensures Inv(Step(s, a))
  {
    var t := Step(s, a);
    if t != s {
      match a
      case Arrive(c, request) => ArriveKeepsInv(s, c, request);
      case Enter(c) =>
        if s.calls[c].request.key == "" { EnterUnkeyedKeepsInv(s, c); } else { RegisterKeepsInv(s, c); }
      case Lock(c) => TakeMutexKeepsInv(s, c);
      case Read(c, readable) => LookUpKeepsInv(s, c, readable);
      case Run(c, outcome) =>
        if s.calls[c].pc.Running? { RunKeepsInv(s, c, outcome); } else { RunUnkeyedKeepsInv(s, c, outcome); }
      case Insert(c, reply) => RecordKeepsInv(s, c, reply);
      case Unlock(c) => ReleaseMutexKeepsInv(s, c);
      case Drop(c) => DeregisterKeepsInv(s, c);
    }
  }

  lemma {:induction false} InvAlways(schedule: seq<Action>)
    ensures Inv(Exec(Start, schedule))
  {
    if schedule != [] {
      InvAlways(schedule[..|schedule| - 1]);
      StepKeepsInv(Exec(Start, schedule[..|schedule| - 1]), schedule[|schedule| - 1]);
    }
  }

  // ---- what every schedule guarantees

  /** At most one call is between acquire and release for a key, although entries are freed and recreated. */
  lemma MutualExclusion(schedule: seq<Action>, key: Key, c: CallId, d: CallId)
    requires Inside(Exec(Start, schedule), c, key) && Inside(Exec(Start, schedule), d, key)
    ensures c == d
  {
    InvAlways(schedule);
    InsideIsExclusive(Exec(Start, schedule), c, d, key);
  }

  /** The calls for a key between their increment and their decrement. */
  ghost function Callers(s: State, key: Key): set<CallId> {
    set c | c in s.calls && s.calls[c].request.key == key && exists e :: Uses(s.calls[c].pc, e)
  }

  /** A key has an entry exactly while it has callers, and the entry counts them. */
  lemma LockTableIsExact(schedule: seq<Action>, key: Key)
    ensures var s := Exec(Start, schedule);
      && (key in s.locks <==> Callers(s, key) != {})
      && (key in s.locks ==> s.locks[key] < |s.heap| && s.heap[s.locks[key]].refs == |Callers(s, key)|)
  {
    InvAlways(schedule);
    var s := Exec(Start, schedule);
    if c :| c in Callers(s, key) {
      var e :| Uses(s.calls[c].pc, e);
    }
    if key in s.locks {
      CallersAreUsers(s, key);
      assert |Users(s.calls, s.locks[key])| > 0;
    }
  }

  lemma CallersAreUsers(s: State, key: Key)
    requires LocksOk(s) && UsesOk(s) && key in s.locks
    ensures Callers(s, key) == Users(s.calls, s.locks[key])
  {
    forall c ensures c in Callers(s, key) <==> c in Users(s.calls, s.locks[key]) {
      if c in Callers(s, key) {
        var e :| Uses(s.calls[c].pc, e);
        assert e == s.locks[key];
      }
    }
  }

  /** Memory is freed once no caller remains. */
  lemma IdleServiceHoldsNothing(schedule: seq<Action>)
    requires forall c :: c in Exec(Start, schedule).calls ==> Exec(Start, schedule).calls[c].pc.Returned?
    ensures Exec(Start, schedule).locks == map[]
  {
    var s := Exec(Start, schedule);
    if key :| key in s.locks {
      LockTableIsExact(schedule, key);
      assert false;
    }
  }

  /** Once a response is recorded for a key, the function never runs for it again and nothing
      else is ever recorded; so at most one run per key is recorded. */
  lemma NothingFollowsTheRecord(schedule: seq<Action>, i: nat, j: nat)
    requires var log := Exec(Start, schedule).log; i < |log| && j < |log| && log[i].Recorded?
    requires Exec(Start, schedule).log[j].key == Exec(Start, schedule).log[i].key
    ensures j <= i && (j == i || Exec(Start, schedule).log[j].Ran?)
  {
    InvAlways(schedule);
  }

  /** Every keyed call that succeeds carries the recorded response, for its own operation and request. */
  lemma SuccessCarriesTheRecord(schedule: seq<Action>, c: CallId)
    requires c in Exec(Start, schedule).calls
    requires var call := Exec(Start, schedule).calls[c];
      call.request.key != "" && call.pc.Returned? && call.pc.result.Success?
    ensures var Call(request, pc) := Exec(Start, schedule).calls[c];
      Recorded(request.key, Record(request.operation, request.requestHash, pc.result.body)) in Exec(Start, schedule).log
  {
    InvAlways(schedule);
  }

  /** Hence any two successes for a key agree, whoever ran the function. */
  lemma SuccessesAgree(schedule: seq<Action>, c: CallId, d: CallId)
    requires c in Exec(Start, schedule).calls && d in Exec(Start, schedule).calls
    requires var s := Exec(Start, schedule);
      && s.calls[c].request.key == s.calls[d].request.key != ""
      && s.calls[c].pc.Returned? && s.calls[c].pc.result.Success?
      && s.calls[d].pc.Returned? && s.calls[d].pc.result.Success?
    ensures var s := Exec(Start, schedule); s.calls[c] == s.calls[d]
  {
    InvAlways(schedule);
  }

  lemma RecordSurvivesStep(s: State, a: Action, key: Key)
    requires key in s.table
    ensures key in Step(s, a).table && Step(s, a).table[key] == s.table[key]
  {
  }

  lemma {:induction false} RecordsLast(schedule: seq<Action>, more: seq<Action>, key: Key)
    requires key in Exec(Start, schedule).table
    ensures key in Exec(Start, schedule + more).table
    ensures Exec(Start, schedule + more).table[key] == Exec(Start, schedule).table[key]
  {
    if more == [] {
      assert schedule + more == schedule;
    } else {
      var init := more[..|more| - 1];
      RecordsLast(schedule, init, key);
      RecordSurvivesStep(Exec(Start, schedule + init), more[|more| - 1], key);
      assert (schedule + more)[..|schedule + more| - 1] == schedule + init;
    }
  }

  /** A call whose operation or request hash differs from the record never succeeds, whatever happens next. */
  lemma ReuseForAnotherRequestFails(schedule: seq<Action>, more: seq<Action>, c: CallId)
    requires c in Exec(Start, schedule + more).calls
    requires var request := Exec(Start, schedule + more).calls[c].request;
      && request.key in Exec(Start, schedule).table
      && var record := Exec(Start, schedule).table[request.key];
         (record.operation != request.operation || record.requestHash != request.requestHash)
    ensures var pc := Exec(Start, schedule + more).calls[c].pc;
      && !(pc.Returned? && pc.result.Success?)
      && !pc.Running? && !pc.Recording?
  {
    InvAlways(schedule + more);
    InvAlways(schedule);
    RecordsLast(schedule, more, Exec(Start, schedule + more).calls[c].request.key);
  }
}
