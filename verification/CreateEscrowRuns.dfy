/** Runs of CreateEscrow, from the start, that end with a row past recovery. */
module CreateEscrowRuns {
  import opened Common
  import opened CreateEscrow
  import opened CreateEscrowRecovery
  import opened CreateEscrowRetries

  const INTENT := Intent("t", [])

  /** One caller inserts the row, claims it, and is about to make the chain call. */
  function Opening(): seq<Action> {
    [Arrive(0, INTENT), LookUp(0, true), Insert(0, Applied)] + [Decide(0), Claim(0, Applied)]
  }

  function RowIn(status: Status, hash: Hash): Row { Row(INTENT, status, hash, None, 0, []) }
  function In(pc: Pc): map<CallId, Call> { map[0 := Call(INTENT, pc)] }
  function Submitted(): Sent { Sent(INTENT, Mined("a", 1)) }

  function S1(): State { State(map[], 0, map[], {}, In(LookingUp)) }
  function S2(): State { State(map[], 0, map[], {}, In(Inserting)) }
  function S3(): State { State(map[0 := RowIn(Pending, "")], 1, map[], {}, In(Deciding(0, RowIn(Pending, "")))) }
  function S4(): State { State(map[0 := RowIn(Pending, "")], 1, map[], {}, In(Claiming(0))) }
  function S5(): State { State(map[0 := RowIn(Submitting, "")], 1, map[], {}, In(Sending(0))) }
  function S6(): State {
    State(map[0 := RowIn(Submitting, "")], 1, map["h" := Submitted()], {}, In(Persisting(0, "h", 1)))
  }
  function S7(): State {
    State(map[0 := RowIn(PendingConfirmation, "h")], 1, map["h" := Submitted()], {}, In(Awaiting(0, "h")))
  }
  function S8(): State {
    State(map[0 := RowIn(PendingConfirmation, "h")], 1, map["h" := Submitted()], {"a"}, In(Awaiting(0, "h")))
  }

  lemma OpeningSteps()
    ensures Step(Start, Arrive(0, INTENT)) == S1()
    ensures Step(S1(), LookUp(0, true)) == S2()
    ensures Step(S2(), Insert(0, Applied)) == S3()
    ensures Step(S3(), Decide(0)) == S4()
    ensures Step(S4(), Claim(0, Applied)) == S5()
  {
  }

  lemma SendingSteps()
    ensures Step(S5(), Send(0, "h", Mined("a", 1), true)) == S6()
    ensures Step(S6(), Persist(0, Applied, false)) == S7()
    ensures Step(S7(), Discover("h")) == S8()
  {
  }

  lemma TwoSteps(s: State, a: Action, b: Action)
    ensures Exec(s, [a, b]) == Step(Step(s, a), b)
  {
    assert [a, b][..1] == [a] && [a][..0] == [];
    assert Exec(s, []) == s;
    assert Exec(s, [a]) == Step(s, a);
  }

  lemma ThreeSteps(s: State, a: Action, b: Action, c: Action)
    ensures Exec(s, [a, b, c]) == Step(Step(Step(s, a), b), c)
  {
    TwoSteps(s, a, b);
    assert [a, b, c][..2] == [a, b];
  }

  lemma OpeningRuns()
    ensures Exec(Start, Opening()) == S5()
  {
    OpeningSteps();
    ThreeSteps(Start, Arrive(0, INTENT), LookUp(0, true), Insert(0, Applied));
    TwoSteps(S3(), Decide(0), Claim(0, Applied));
    ExecSplits(Start, [Arrive(0, INTENT), LookUp(0, true), Insert(0, Applied)], [Decide(0), Claim(0, Applied)]);
  }

  lemma Continue(rest: seq<Action>)
    ensures Exec(Start, Opening() + rest) == Exec(S5(), rest)
  {
    OpeningRuns();
    ExecSplits(Start, Opening(), rest);
  }

  /** No crash: the chain call fails, and then so does setting the row back. */
  lemma FailedResetAbandons()
    ensures Abandoned(Exec(Start, Opening() + [Send(0, "", Reverted, false), Unclaim(0, Refused)]), 0)
  {
    Continue([Send(0, "", Reverted, false), Unclaim(0, Refused)]);
    TwoSteps(S5(), Send(0, "", Reverted, false), Unclaim(0, Refused));
  }

  /** A crash between the chain call and storing its hash: the transaction is mined, and nobody reports it. */
  lemma CrashAfterSendingStrands()
    ensures var s := Exec(Start, Opening() + [Send(0, "h", Mined("a", 1), true), Crash(0)]);
      Abandoned(s, 0) && SentFor(s, "h", s.rows[0].intent) && s.chain["h"].receipt.Mined?
  {
    SendingSteps();
    Continue([Send(0, "h", Mined("a", 1), true), Crash(0)]);
    TwoSteps(S5(), Send(0, "h", Mined("a", 1), true), Crash(0));
  }

  /** Neither a crash nor a failure: the indexer sees the new escrow before the caller finalizes it, and the
      row can never be finalized. */
  lemma IndexerFirstStrands()
    ensures var s := Exec(Start, Opening()
                          + [Send(0, "h", Mined("a", 1), true), Persist(0, Applied, false), Discover("h")]);
      0 in s.rows && !Recoverable(s, 0) && !Finished(s.rows[0]) && SentFor(s, "h", s.rows[0].intent)
  {
    SendingSteps();
    Continue([Send(0, "h", Mined("a", 1), true), Persist(0, Applied, false), Discover("h")]);
    ThreeSteps(S5(), Send(0, "h", Mined("a", 1), true), Persist(0, Applied, false), Discover("h"));
    assert Taken(S8(), 0, "a");
  }
}
