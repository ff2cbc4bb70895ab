/** Runs of the auction, from the start, in which two accepting calls each create an escrow on the chain for the
    same best bid. */
module AuctionDoubleSend {
  import opened Common
  import opened Auction
  import opened AuctionRuns
  import opened AuctionLateRun

  // ---- the best bid is revealed, and the reveal deadline passes

  function Revealing(): seq<Action> {
    [Tick(10), StartReveal(2, 0, 0, OFFER, true), Advance(2, true)]
  }

  function Prefix(): seq<Action> { Opening() + Revealing() + [Tick(11)] }

  /** The state then, with any calls. */
  function Before(calls: map<Tid, Pc>): Sys { At(21, Shown(), 1, OneBidMade(), 1, calls) }

  function R1(): Sys { At(10, One(), 1, map[], 0, map[0 := Done]) }
  function R2(): Sys { At(10, One(), 1, map[], 0, map[0 := Done, 2 := Reveal(0)]) }
  function R3(): Sys { At(10, Shown(), 1, OneBidMade(), 1, map[0 := Done, 2 := Done]) }

  lemma RevealSteps()
    ensures Step(S3(), Tick(10)) == R1() && Step(R1(), StartReveal(2, 0, 0, OFFER, true)) == R2()
    ensures Step(R2(), Advance(2, true)) == R3()
  {
    assert Step(R2(), Advance(2, true)).db.commits == Shown();
    assert Step(R2(), Advance(2, true)).db.bids == OneBidMade();
  }

  lemma OneStep(s: Sys, a: Action)
    ensures Exec(s, [a]) == Step(s, a)
  {
    assert [a][..0] == [] && Exec(s, []) == s;
  }

  lemma PrefixRuns()
    ensures Exec(Start, Prefix()) == Before(map[0 := Done, 2 := Done])
  {
    OpeningRuns();
    RevealSteps();
    ThreeSteps(S3(), Tick(10), StartReveal(2, 0, 0, OFFER, true), Advance(2, true));
    ExecSplits(Start, Opening(), Revealing());
    ExecSplits(Start, Opening() + Revealing(), [Tick(11)]);
    OneStep(R3(), Tick(11));
  }

  // ---- finalization

  function FinalRfq(): Rfq { LATE_RFQ.(sealing := Finalized, best := Some(0), finalizedAt := 21) }
  function TheBallot(): set<Candidate> { {Candidate(5, 1, 0, 0)} }

  /** The state once the RFQ is final, with any calls and sends. */
  function Final(calls: map<Tid, Pc>, sends: seq<Send>): Sys {
    Sys(Db(map[0 := FinalRfq()], OneBidMade(), Shown(), map[], 1, 1), 21, calls, map[0 := TheBallot()], sends)
  }

  function Started(): Pc { AcceptStarted(21, 0, 0) }
  function Finalizing(): Pc { AcceptFinalizing(21, 0, 0, 21) }
  function Chosen(): Pc { AcceptChosen(21, 0, 0, Some(0)) }

  lemma BallotOfOne(calls: map<Tid, Pc>)
    ensures Ballot(Before(calls).db, 0, 21) == TheBallot()
  {
    var db := Before(calls).db;
    assert Reveals(db, 0, 0);
    assert IsCandidate(db, 0, 21, 0, 0);
    assert CandidateOf(db, 0, 0) == Candidate(5, 1, 0, 0);
  }

  lemma WinnerOfOne()
    ensures Winner(TheBallot()) == Some(0)
  {
    var w := Winner(TheBallot());
    assert Candidate(5, 1, 0, 0) in TheBallot();
  }

  lemma FinalizeStep(calls: map<Tid, Pc>)
    ensures FinalizeTx(Before(calls).db, 21, 0) == Final(calls, []).db
  {
    BallotOfOne(calls);
    WinnerOfOne();
    var db := Before(calls).db;
    assert NonRevealers(db, 0) == {};
    assert Disciplined(db.discipline, {}, 21) == map[];
    assert ExpireCommitted(db, 0).commits == db.commits;
  }

  lemma Begins(calls: map<Tid, Pc>, t: Tid)
    requires t !in calls
    ensures Step(Before(calls), StartAccept(t, 0, 0)) == Before(calls[t := Started()])
  {
  }

  lemma Previews(calls: map<Tid, Pc>, t: Tid)
    requires t in calls && calls[t] == Started()
    ensures Step(Before(calls), Advance(t, true)) == Before(calls[t := Finalizing()])
  {
  }

  lemma CountsBallot(calls: map<Tid, Pc>, t: Tid)
    requires t in calls && calls[t] == Finalizing()
    ensures Step(Before(calls), Advance(t, true)) == Final(calls[t := Chosen()], [])
  {
    FinalizeStep(calls);
    BallotOfOne(calls);
  }

  // ---- an accept of the final RFQ

  lemma BeginsLate(calls: map<Tid, Pc>, sends: seq<Send>, t: Tid)
    requires t !in calls
    ensures Step(Final(calls, sends), StartAccept(t, 0, 0)) == Final(calls[t := Started()], sends)
  {
  }

  lemma FindsItFinal(calls: map<Tid, Pc>, sends: seq<Send>, t: Tid)
    requires t in calls && calls[t] == Started()
    ensures Step(Final(calls, sends), Advance(t, true)) == Final(calls[t := Chosen()], sends)
  {
  }

  lemma ReadsBid(calls: map<Tid, Pc>, sends: seq<Send>, t: Tid)
    requires t in calls && calls[t] == Chosen()
    ensures Step(Final(calls, sends), Advance(t, true)) == Final(calls[t := AcceptBidRead(0, 0)], sends)
  {
  }

  lemma FindsCommit(calls: map<Tid, Pc>, sends: seq<Send>, t: Tid)
    requires t in calls && calls[t] == AcceptBidRead(0, 0)
    ensures Step(Final(calls, sends), Advance(t, true)) == Final(calls[t := AcceptSending(0, 0)], sends)
  {
    assert Reveals(Final(calls, sends).db, 0, 0);
  }

  lemma CreatesEscrow(calls: map<Tid, Pc>, sends: seq<Send>, t: Tid)
    requires t in calls && calls[t] == AcceptSending(0, 0)
    ensures Step(Final(calls, sends), Advance(t, true))
      == Final(calls[t := AcceptReady(0, 0)], sends + [Send(t, 0, 0)])
  {
  }

  lemma FailsAfterwards(calls: map<Tid, Pc>, sends: seq<Send>, t: Tid)
    requires t in calls && calls[t] == AcceptReady(0, 0)
    ensures Step(Final(calls, sends), Advance(t, false)) == Final(calls[t := Done], sends)
  {
  }

  lemma Accepts(calls: map<Tid, Pc>, sends: seq<Send>, t: Tid)
    requires t in calls && calls[t] == AcceptReady(0, 0)
    ensures var n := Step(Final(calls, sends), Advance(t, true));
      n.sends == sends && 0 in n.db.bids && n.db.bids[0].status == Accepted
  {
  }

  /** From the named best bid to the escrow on the chain. */
  function Sending(t: Tid): seq<Action> { [Advance(t, true), Advance(t, true), Advance(t, true)] }

  lemma SendingRuns(calls: map<Tid, Pc>, sends: seq<Send>, t: Tid, more: seq<Send>) returns (after: map<Tid, Pc>)
    requires t in calls && calls[t] == Chosen() && more == sends + [Send(t, 0, 0)]
    ensures Exec(Final(calls, sends), Sending(t)) == Final(after, more)
    ensures t in after && after[t] == AcceptReady(0, 0)
    ensures forall u :: u != t ==> (u in after <==> u in calls) && (u in calls ==> after[u] == calls[u])
  {
    ReadsBid(calls, sends, t);
    var read := calls[t := AcceptBidRead(0, 0)];
    FindsCommit(read, sends, t);
    var found := read[t := AcceptSending(0, 0)];
    CreatesEscrow(found, sends, t);
    after := found[t := AcceptReady(0, 0)];
    ThreeSteps(Final(calls, sends), Advance(t, true), Advance(t, true), Advance(t, true));
  }

  function OneSend(): seq<Send> { [Send(4, 0, 0)] }
  function TwoSends(): seq<Send> { [Send(4, 0, 0), Send(5, 0, 0)] }

  // ---- two accepts at once

  lemma InThree(s: Sys, t: Sys, u: Sys, a: seq<Action>, b: seq<Action>, c: seq<Action>)
    requires Exec(s, a) == t && Exec(t, b) == u
    ensures Exec(s, a + b + c) == Exec(u, c)
  {
    ExecSplits(s, a, b);
    ExecSplits(s, a + b, c);
  }

  /** Both calls begin before either finalizes the RFQ; the first finalizes. */
  function BothBegin(): seq<Action> {
    [StartAccept(4, 0, 0), StartAccept(5, 0, 0), Advance(4, true)] + [Advance(4, true), Advance(5, true)]
  }

  function TwoAtOnce(): seq<Action> { BothBegin() + Sending(4) + Sending(5) }

  lemma BothChosen(calls: map<Tid, Pc>) returns (after: map<Tid, Pc>)
    requires 4 !in calls && 5 !in calls
    ensures Exec(Before(calls), BothBegin()) == Final(after, [])
    ensures 4 in after && after[4] == Chosen() && 5 in after && after[5] == Chosen()
  {
    Begins(calls, 4);
    var one := calls[4 := Started()];
    Begins(one, 5);
    var two := one[5 := Started()];
    Previews(two, 4);
    var previewed := two[4 := Finalizing()];
    CountsBallot(previewed, 4);
    var first := previewed[4 := Chosen()];
    FindsItFinal(first, [], 5);
    after := first[5 := Chosen()];
    ThreeSteps(Before(calls), StartAccept(4, 0, 0), StartAccept(5, 0, 0), Advance(4, true));
    TwoSteps(Before(previewed), Advance(4, true), Advance(5, true));
    ExecSplits(Before(calls), [StartAccept(4, 0, 0), StartAccept(5, 0, 0), Advance(4, true)],
               [Advance(4, true), Advance(5, true)]);
  }

  lemma TwoAtOnceRuns(calls: map<Tid, Pc>)
    requires 4 !in calls && 5 !in calls
    ensures Exec(Before(calls), TwoAtOnce()).sends == TwoSends()
  {
    var chosen := BothChosen(calls);
    var sent := SendingRuns(chosen, [], 4, OneSend());
    var both := SendingRuns(sent, OneSend(), 5, TwoSends());
    InThree(Before(calls), Final(chosen, []), Final(sent, OneSend()), BothBegin(), Sending(4), Sending(5));
  }

  /** Two concurrent accepts of the best bid send two escrows. */
  lemma TwoAcceptsSendTwice()
    ensures Exec(Start, Prefix() + TwoAtOnce()).sends == [Send(4, 0, 0), Send(5, 0, 0)]
  {
    PrefixRuns();
    TwoAtOnceRuns(map[0 := Done, 2 := Done]);
    ExecSplits(Start, Prefix(), TwoAtOnce());
  }

  // ---- one accept after the other

  /** The first call fails after its chain call; only then does the second begin, and it goes all the way. */
  function OneAfterAnother(): seq<Action> {
    FirstBegins() + Sending(4) + SecondBegins() + Sending(5) + [Advance(5, true)]
  }

  function FirstBegins(): seq<Action> { [StartAccept(4, 0, 0), Advance(4, true), Advance(4, true)] }
  function SecondBegins(): seq<Action> { [Advance(4, false), StartAccept(5, 0, 0), Advance(5, true)] }

  lemma FirstChosen(calls: map<Tid, Pc>) returns (after: map<Tid, Pc>)
    requires 4 !in calls && 5 !in calls
    ensures Exec(Before(calls), FirstBegins()) == Final(after, [])
    ensures 4 in after && after[4] == Chosen() && 5 !in after
  {
    Begins(calls, 4);
    var begun := calls[4 := Started()];
    Previews(begun, 4);
    var previewed := begun[4 := Finalizing()];
    CountsBallot(previewed, 4);
    after := previewed[4 := Chosen()];
    ThreeSteps(Before(calls), StartAccept(4, 0, 0), Advance(4, true), Advance(4, true));
  }

  lemma SecondChosen(calls: map<Tid, Pc>, sends: seq<Send>) returns (after: map<Tid, Pc>)
    requires 4 in calls && calls[4] == AcceptReady(0, 0) && 5 !in calls
    ensures Exec(Final(calls, sends), SecondBegins()) == Final(after, sends)
    ensures 5 in after && after[5] == Chosen()
  {
    FailsAfterwards(calls, sends, 4);
    var failed := calls[4 := Done];
    BeginsLate(failed, sends, 5);
    var begun := failed[5 := Started()];
    FindsItFinal(begun, sends, 5);
    after := begun[5 := Chosen()];
    ThreeSteps(Final(calls, sends), Advance(4, false), StartAccept(5, 0, 0), Advance(5, true));
  }

  lemma ThreeParts(calls: map<Tid, Pc>) returns (after: map<Tid, Pc>)
    requires 4 !in calls && 5 !in calls
    ensures Exec(Before(calls), FirstBegins() + Sending(4) + SecondBegins()) == Final(after, OneSend())
    ensures 5 in after && after[5] == Chosen()
  {
    var chosen := FirstChosen(calls);
    var sent := SendingRuns(chosen, [], 4, OneSend());
    after := SecondChosen(sent, OneSend());
    InThree(Before(calls), Final(chosen, []), Final(sent, OneSend()), FirstBegins(), Sending(4), SecondBegins());
  }

  lemma OneAfterAnotherRuns(calls: map<Tid, Pc>)
    requires 4 !in calls && 5 !in calls
    ensures var s := Exec(Before(calls), OneAfterAnother());
      s.sends == TwoSends() && 0 in s.db.bids && s.db.bids[0].status == Accepted
  {
    var again := ThreeParts(calls);
    var both := SendingRuns(again, OneSend(), 5, TwoSends());
    Accepts(both, TwoSends(), 5);
    OneStep(Final(both, TwoSends()), Advance(5, true));
    InThree(Before(calls), Final(again, OneSend()), Final(both, TwoSends()),
            FirstBegins() + Sending(4) + SecondBegins(), Sending(5), [Advance(5, true)]);
  }

  /** An accept that fails after its chain call, and one that begins only then, send two escrows for one accepted
      bid. */
  lemma RetriedAcceptSendsTwice()
    ensures var s := Exec(Start, Prefix() + OneAfterAnother());
      s.sends == TwoSends() && 0 in s.db.bids && s.db.bids[0].status == Accepted
  {
    PrefixRuns();
    OneAfterAnotherRuns(map[0 := Done, 2 := Done]);
    ExecSplits(Start, Prefix(), OneAfterAnother());
  }
}
