/** What each idempotent call answers: the record's response where there is one, and otherwise what the function
    and its recording make of it. */
module KeyLockAnswers {
  import opened Common
  import opened KeyLock

  /** The call has its answer: it only has to let go and return. */
  predicate HasAnswer(s: State, c: CallId, result: Result) {
    c in s.calls
    && match s.calls[c].pc
       case Unlocking(_, r) => r == result
       case Dropping(_, r) => r == result
       case Returned(r) => r == result
       case _ => false
  }

  lemma AnswerStays(s: State, a: Action, c: CallId, result: Result)
    requires HasAnswer(s, c, result)
    ensures HasAnswer(Step(s, a), c, result)
  {
  }

  lemma {:induction false} AnswerLasts(s: State, more: seq<Action>, c: CallId, result: Result)
    requires HasAnswer(s, c, result)
    ensures HasAnswer(Exec(s, more), c, result)
  {
    if more != [] {
      AnswerLasts(s, more[..|more| - 1], c, result);
      AnswerStays(Exec(s, more[..|more| - 1]), more[|more| - 1], c, result);
    }
  }

  lemma {:induction false} ExecSplits(s: State, schedule: seq<Action>, more: seq<Action>)
    ensures Exec(s, schedule + more) == Exec(Exec(s, schedule), more)
  {
    if more == [] {
      assert schedule + more == schedule;
    } else {
      assert (schedule + more)[..|schedule + more| - 1] == schedule + more[..|more| - 1];
      ExecSplits(s, schedule, more[..|more| - 1]);
    }
  }

  lemma AnsweredByStep(schedule: seq<Action>, a: Action, more: seq<Action>, c: CallId, result: Result)
    requires HasAnswer(Step(Exec(Start, schedule), a), c, result)
    ensures HasAnswer(Exec(Start, schedule + [a] + more), c, result)
  {
    var s := Exec(Start, schedule);
    assert (schedule + [a])[..|schedule|] == schedule;
    assert Exec(Start, schedule + [a]) == Step(s, a);
    AnswerLasts(Step(s, a), more, c, result);
    ExecSplits(Start, schedule + [a], more);
  }

  /** A keyed call that reads the record of its key answers, however the run goes on, with the recorded body if
      the record is of its own operation and request hash, and with a conflict otherwise. */
  lemma ReplayAnswers(schedule: seq<Action>, c: CallId, more: seq<Action>)
    requires var s := Exec(Start, schedule);
      c in s.calls && s.calls[c].pc.Checking? && s.calls[c].request.key in s.table
    ensures var s, t := Exec(Start, schedule), Exec(Start, schedule + [Read(c, true)] + more);
      var Record(operation, hash, body) := s.table[s.calls[c].request.key];
      HasAnswer(t, c, if operation == s.calls[c].request.operation && hash == s.calls[c].request.requestHash
                      then Success(body) else Conflict)
  {
    var s := Exec(Start, schedule);
    var Record(operation, hash, body) := s.table[s.calls[c].request.key];
    AnsweredByStep(schedule, Read(c, true), more, c,
                   if operation == s.calls[c].request.operation && hash == s.calls[c].request.requestHash
                   then Success(body) else Conflict);
  }

  /** Without a record the call runs the function: nothing else happens to it between its read and its run. */
  lemma NoRecordRuns(schedule: seq<Action>, c: CallId)
    requires var s := Exec(Start, schedule);
      c in s.calls && s.calls[c].pc.Checking? && s.calls[c].request.key !in s.table
    ensures var s := Exec(Start, schedule); var t := Step(s, Read(c, true));
      t == Goto(s, c, Running(s.calls[c].pc.entry))
  {
  }

  /** A read that fails fails the call, without a run of the function. */
  lemma UnreadableFails(schedule: seq<Action>, c: CallId, more: seq<Action>)
    requires c in Exec(Start, schedule).calls && Exec(Start, schedule).calls[c].pc.Checking?
    ensures HasAnswer(Exec(Start, schedule + [Read(c, false)] + more), c, Failed)
    ensures Step(Exec(Start, schedule), Read(c, false)).log == Exec(Start, schedule).log
  {
    AnsweredByStep(schedule, Read(c, false), more, c, Failed);
  }

  lemma LogsTheRun(s: State, c: CallId, outcome: Option<Body>)
    requires c in s.calls && s.calls[c].pc.Running?
    ensures var t := Step(s, Run(c, outcome));
      && t.log == s.log + [Ran(s.calls[c].request.key, c)] && t.table == s.table && c in t.calls
      && t.calls[c].pc == match outcome case Some(body) => Recording(s.calls[c].pc.entry, body)
                                        case None => Unlocking(s.calls[c].pc.entry, Failed)
  {
  }

  /** A run of the function is logged once; if it fails so does the call, and if it answers the call goes on to
      record just that. */
  lemma RunIsLogged(schedule: seq<Action>, c: CallId, outcome: Option<Body>)
    requires c in Exec(Start, schedule).calls && Exec(Start, schedule).calls[c].pc.Running?
    ensures var s := Exec(Start, schedule); var t := Step(s, Run(c, outcome));
      && t.log == s.log + [Ran(s.calls[c].request.key, c)] && t.table == s.table && c in t.calls
      && match outcome
         case Some(body) => t.calls[c].pc == Recording(s.calls[c].pc.entry, body)
         case None => HasAnswer(t, c, Failed)
  {
    LogsTheRun(Exec(Start, schedule), c, outcome);
  }

  /** A call that has run its function answers with that function's body if its record goes in, which then is of
      its own operation and request hash; otherwise it fails, and the table has the record exactly if the insert
      took effect. */
  lemma RecordingAnswers(schedule: seq<Action>, c: CallId, reply: DbReply, more: seq<Action>)
    requires c in Exec(Start, schedule).calls && Exec(Start, schedule).calls[c].pc.Recording?
    ensures var s := Exec(Start, schedule); var Call(request, Recording(_, body)) := s.calls[c];
      && HasAnswer(Exec(Start, schedule + [Insert(c, reply)] + more), c,
                   if reply.Applied? then Success(body) else Failed)
      && request.key !in s.table
      && Step(s, Insert(c, reply)).table
           == if reply.Refused? then s.table
              else s.table[request.key := Record(request.operation, request.requestHash, body)]
  {
    InvAlways(schedule);
    var s := Exec(Start, schedule);
    AnsweredByStep(schedule, Insert(c, reply), more, c,
                   if reply.Applied? then Success(s.calls[c].pc.body) else Failed);
  }

  /** A call without a key answers what the function does, and is never recorded. */
  lemma UnkeyedAnswers(schedule: seq<Action>, c: CallId, outcome: Option<Body>, more: seq<Action>)
    requires c in Exec(Start, schedule).calls && Exec(Start, schedule).calls[c].pc.RunningUnkeyed?
    ensures HasAnswer(Exec(Start, schedule + [Run(c, outcome)] + more), c,
                      match outcome case Some(body) => Success(body) case None => Failed)
    ensures Step(Exec(Start, schedule), Run(c, outcome)).table == Exec(Start, schedule).table
  {
    AnsweredByStep(schedule, Run(c, outcome), more, c,
                   match outcome case Some(body) => Success(body) case None => Failed);
  }
}
