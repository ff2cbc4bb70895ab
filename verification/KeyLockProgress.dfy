/** Progress of the calls of the idempotency protocol: none is ever stuck, and all of them return. */
module KeyLockProgress {
  import opened Common
  import opened KeyLock

  // ---- no call is stuck

  /** The step moves a call that is already there: the given one or, while that one waits, the holder of
      the entry it waits for. */
  ghost predicate Helps(s: State, c: CallId, a: Action)
    requires c in s.calls
  {
    && !a.Arrive? && a.c in s.calls
    && (a.c == c || (s.calls[c].pc.Waiting? && Holds(s.calls[a.c].pc, s.calls[c].pc.entry)))
    && a.c in Step(s, a).calls && Step(s, a).calls[a.c].pc != s.calls[a.c].pc
  }

  /** The next step of a call that has taken its mutex: whatever fails, it lets go in the end. */
  function HolderStep(c: CallId, pc: Pc): Action {
    match pc
    case Checking(_) => Read(c, false)
    case Running(_) => Run(c, None)
    case Recording(_, _) => Insert(c, Refused)
    case _ => Unlock(c)
  }

  lemma HolderMoves(s: State, c: CallId, e: EntryId)
    requires OwnersOk(s) && c in s.calls && Holds(s.calls[c].pc, e)
    ensures var a := HolderStep(c, s.calls[c].pc);
      !a.Arrive? && a.c == c && c in Step(s, a).calls && Step(s, a).calls[c].pc != s.calls[c].pc
  {
  }

  lemma SomeStepHelps(s: State, c: CallId) returns (a: Action)
    requires LocksOk(s) && UsesOk(s) && OwnersOk(s) && c in s.calls && !s.calls[c].pc.Returned?
    ensures Helps(s, c, a)
  {
    var pc := s.calls[c].pc;
    if pc.Arrived? {
      a := Enter(c);
    } else if pc.RunningUnkeyed? {
      a := Run(c, None);
    } else if pc.Waiting? {
      assert Uses(pc, pc.entry);
      var owner := s.heap[pc.entry].owner;
      if owner.None? {
        a := Lock(c);
      } else {
        assert Holds(s.calls[owner.value].pc, pc.entry);
        HolderMoves(s, owner.value, pc.entry);
        a := HolderStep(owner.value, s.calls[owner.value].pc);
      }
    } else if pc.Dropping? {
      assert Uses(pc, pc.entry);
      a := Drop(c);
    } else {
      assert Holds(pc, pc.entry);
      HolderMoves(s, c, pc.entry);
      a := HolderStep(c, pc);
    }
  }

  /** In every interleaving a call that has not returned can move or, if it waits for a mutex, the call
      that holds that very mutex can. */
  lemma NoCallIsStuck(schedule: seq<Action>, c: CallId)
    requires c in Exec(Start, schedule).calls && !Exec(Start, schedule).calls[c].pc.Returned?
    ensures exists a :: Helps(Exec(Start, schedule), c, a)
  {
    InvAlways(schedule);
    var a := SomeStepHelps(Exec(Start, schedule), c);
  }

  // ---- every step brings the calls closer to their end

  function StepsLeft(pc: Pc): nat {
    match pc
    case Arrived => 7
    case Waiting(_) => 6
    case Checking(_) => 5
    case Running(_) => 4
    case Recording(_, _) => 3
    case Unlocking(_, _) => 2
    case Dropping(_, _) => 1
    case RunningUnkeyed => 1
    case Returned(_) => 0
  }

  /** The work the calls have left: the pairs of a call and a step of its own still ahead of it. */
  ghost function Work(s: State): set<(CallId, int)> {
    set c, k | c in s.calls && 0 <= k < StepsLeft(s.calls[c].pc) :: (c, k)
  }

  lemma MoveLowersCall(s: State, a: Action)
    requires !a.Arrive? && Step(s, a) != s
    ensures a.c in s.calls && a.c in Step(s, a).calls && Step(s, a).calls == s.calls[a.c := Step(s, a).calls[a.c]]
    ensures StepsLeft(Step(s, a).calls[a.c].pc) < StepsLeft(s.calls[a.c].pc)
  {
  }

  lemma SmallerSet<T>(a: set<T>, b: set<T>)
    requires a < b
    ensures |a| < |b|
  {
    var x :| x in b && x !in a;
    SubsetIsNoLarger(a, b - {x});
  }

  /** Every step but an arrival either changes nothing or leaves less work. */
  lemma StepsLowerWork(s: State, a: Action)
    requires !a.Arrive? && Step(s, a) != s
    ensures |Work(Step(s, a))| < |Work(s)|
  {
    MoveLowersCall(s, a);
    var t := Step(s, a);
    forall p | p in Work(t) ensures p in Work(s) {
      assert p.0 == a.c || t.calls[p.0] == s.calls[p.0];
    }
    var k := StepsLeft(t.calls[a.c].pc);
    assert (a.c, k) in Work(s) && (a.c, k) !in Work(t);
    SmallerSet(Work(t), Work(s));
  }

  ghost predicate Arrives(schedule: seq<Action>) {
    exists i :: 0 <= i < |schedule| && schedule[i].Arrive?
  }

  /** How many steps of a run change the state. */
  ghost function Moves(s: State, schedule: seq<Action>): nat {
    if schedule == [] then 0
    else
      var init, last := schedule[..|schedule| - 1], schedule[|schedule| - 1];
      Moves(s, init) + if Step(Exec(s, init), last) != Exec(s, init) then 1 else 0
  }

  /** Without new arrivals only so many steps can change anything, in whatever order they are taken. */
  lemma {:induction false} RunsEnd(s: State, schedule: seq<Action>)
    requires !Arrives(schedule)
    ensures Moves(s, schedule) + |Work(Exec(s, schedule))| <= |Work(s)|
  {
    if schedule != [] {
      var init, last := schedule[..|schedule| - 1], schedule[|schedule| - 1];
      assert !Arrives(init) by { assert forall i :: 0 <= i < |init| ==> init[i] == schedule[i]; }
      RunsEnd(s, init);
      if Step(Exec(s, init), last) != Exec(s, init) { StepsLowerWork(Exec(s, init), last); }
    }
  }

  /** And no step can change anything any more exactly when every call has returned. */
  lemma QuietExactlyWhenReturned(schedule: seq<Action>)
    ensures var s := Exec(Start, schedule);
      (forall a: Action :: !a.Arrive? ==> Step(s, a) == s) <==> forall c :: c in s.calls ==> s.calls[c].pc.Returned?
  {
    var s := Exec(Start, schedule);
    if c :| c in s.calls && !s.calls[c].pc.Returned? {
      NoCallIsStuck(schedule, c);
      var a :| Helps(s, c, a);
      assert Step(s, a) != s;
    }
  }

  /** From every reachable state the calls can all return, without a new one arriving. */
  lemma {:induction false} AllCanReturn(schedule: seq<Action>) returns (more: seq<Action>)
    ensures !Arrives(more) && |more| <= |Work(Exec(Start, schedule))|
    ensures var t := Exec(Start, schedule + more); forall c :: c in t.calls ==> t.calls[c].pc.Returned?
    decreases |Work(Exec(Start, schedule))|
  {
    var s := Exec(Start, schedule);
    if c :| c in s.calls && !s.calls[c].pc.Returned? {
      InvAlways(schedule);
      var a := SomeStepHelps(s, c);
      assert Exec(Start, schedule + [a]) == Step(s, a) by { assert (schedule + [a])[..|schedule|] == schedule; }
      StepsLowerWork(s, a);
      var rest := AllCanReturn(schedule + [a]);
      more := [a] + rest;
      assert schedule + [a] + rest == schedule + more;
    } else {
      more := [];
      assert schedule + more == schedule;
    }
  }
}
