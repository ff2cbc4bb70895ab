/** A run of the auction, from the start, in which one bidder ends up with two bids. */
module AuctionLateRun {
  import opened Common
  import opened Auction
  import opened AuctionRuns

  const LATE_RFQ := Rfq("b", true, Open, 10, 20, 30, 1, 9, false, Unset, None, 0)
  const OFFER := Offer("w", Some(5), 1, 30, true)

  /** Bidder w commits; a second CommitBid of w reads the clock before the commit deadline. */
  function Opening(): seq<Action> {
    [CreateRfq(0, LATE_RFQ), StartCommit(0, 0, "w", "c", "m"), Advance(0, true)]
  }

  function SecondCommit(): seq<Action> {
    [StartCommit(1, 0, "w", "d", "n"), Tick(10), StartReveal(2, 0, 0, OFFER, true)]
  }

  /** The first commit is revealed, and only then the second inserted; then that is revealed too. */
  function LateRun(): seq<Action> {
    Opening() + SecondCommit() + [Advance(2, true), Advance(1, true)]
    + [StartReveal(3, 0, 1, OFFER, true), Advance(3, true)]
  }

  // ---- the state after each step

  function At(clock: int, commits: map<CommitId, Commit>, nextCommit: CommitId, bids: map<BidId, Bid>, nextBid: BidId,
              calls: map<Tid, Pc>): Sys {
    Sys(Db(map[0 := LATE_RFQ], bids, commits, map[], nextBid, nextCommit), clock, calls, map[], [])
  }

  function First(status: CommitStatus, bid: Option<BidId>): Commit { Commit(0, "w", "c", "m", status, bid, 0) }
  function Second(status: CommitStatus, bid: Option<BidId>): Commit { Commit(0, "w", "d", "n", status, bid, 10) }
  function FirstInsert(): Pc { CommitReady(0, 0, "w", "c", "m") }
  function LateInsert(): Pc { CommitReady(0, 0, "w", "d", "n") }
  function Reveal(c: CommitId): Pc { RevealReady(0, c, OFFER) }

  function One(): map<CommitId, Commit> { map[0 := First(Committed, None)] }
  function Shown(): map<CommitId, Commit> { map[0 := First(Revealed, Some(0))] }
  function Both(): map<CommitId, Commit> { map[0 := First(Revealed, Some(0)), 1 := Second(Committed, None)] }
  function OneBidMade(): map<BidId, Bid> { map[0 := Bid(0, OFFER, Pending)] }

  function S1(): Sys { At(0, map[], 0, map[], 0, map[]) }
  function S2(): Sys { At(0, map[], 0, map[], 0, map[0 := FirstInsert()]) }
  function S3(): Sys { At(0, One(), 1, map[], 0, map[0 := Done]) }
  function S4(): Sys { At(0, One(), 1, map[], 0, map[0 := Done, 1 := LateInsert()]) }
  function S5(): Sys { At(10, One(), 1, map[], 0, map[0 := Done, 1 := LateInsert()]) }
  function S6(): Sys { At(10, One(), 1, map[], 0, map[0 := Done, 1 := LateInsert(), 2 := Reveal(0)]) }
  function S7(): Sys { At(10, Shown(), 1, OneBidMade(), 1, map[0 := Done, 1 := LateInsert(), 2 := Done]) }
  function S8(): Sys { At(10, Both(), 2, OneBidMade(), 1, map[0 := Done, 1 := Done, 2 := Done]) }
  function S9(): Sys { At(10, Both(), 2, OneBidMade(), 1, map[0 := Done, 1 := Done, 2 := Done, 3 := Reveal(1)]) }

  lemma Steps123()
    ensures Step(Start, CreateRfq(0, LATE_RFQ)) == S1()
    ensures Step(S1(), StartCommit(0, 0, "w", "c", "m")) == S2()
    ensures Step(S2(), Advance(0, true)) == S3()
  {
    assert Step(S2(), Advance(0, true)).db.commits == One();
  }

  lemma Steps456()
    ensures Step(S3(), StartCommit(1, 0, "w", "d", "n")) == S4()
    ensures Step(S4(), Tick(10)) == S5()
    ensures Step(S5(), StartReveal(2, 0, 0, OFFER, true)) == S6()
  {
  }

  lemma Step7()
    ensures Step(S6(), Advance(2, true)) == S7()
  {
    assert Step(S6(), Advance(2, true)).db.commits == Shown();
    assert Step(S6(), Advance(2, true)).db.bids == OneBidMade();
  }

  lemma Step8()
    ensures Step(S7(), Advance(1, true)) == S8()
  {
    assert Step(S7(), Advance(1, true)).db.commits == Both();
  }

  lemma Steps9And10()
    ensures Step(S8(), StartReveal(3, 0, 1, OFFER, true)) == S9()
    ensures !OneBid(Step(S9(), Advance(3, true)).db)
  {
    var bids := Step(S9(), Advance(3, true)).db.bids;
    assert bids == map[0 := Bid(0, OFFER, Pending), 1 := Bid(0, OFFER, Pending)];
    assert 0 in bids && 1 in bids;
  }

  lemma TwoSteps(s: Sys, a: Action, b: Action)
    ensures Exec(s, [a, b]) == Step(Step(s, a), b)
  {
    assert [a, b][..1] == [a] && [a][..0] == [];
    assert Exec(s, []) == s;
    assert Exec(s, [a]) == Step(s, a);
  }

  lemma ThreeSteps(s: Sys, a: Action, b: Action, c: Action)
    ensures Exec(s, [a, b, c]) == Step(Step(Step(s, a), b), c)
  {
    TwoSteps(s, a, b);
    assert [a, b, c][..2] == [a, b];
  }

  lemma OpeningRuns()
    ensures Exec(Start, Opening()) == S3()
  {
    Steps123();
    ThreeSteps(Start, CreateRfq(0, LATE_RFQ), StartCommit(0, 0, "w", "c", "m"), Advance(0, true));
  }

  lemma SecondCommitRuns()
    ensures Exec(S3(), SecondCommit()) == S6()
  {
    Steps456();
    ThreeSteps(S3(), StartCommit(1, 0, "w", "d", "n"), Tick(10), StartReveal(2, 0, 0, OFFER, true));
  }

  lemma LateInsertRuns()
    ensures Exec(S6(), [Advance(2, true), Advance(1, true)]) == S8()
  {
    Step7();
    Step8();
    TwoSteps(S6(), Advance(2, true), Advance(1, true));
  }

  lemma SecondRevealRuns()
    ensures !OneBid(Exec(S8(), [StartReveal(3, 0, 1, OFFER, true), Advance(3, true)]).db)
  {
    Steps9And10();
    TwoSteps(S8(), StartReveal(3, 0, 1, OFFER, true), Advance(3, true));
  }

  lemma RunsInParts(s3: Sys, s6: Sys, s8: Sys, a: seq<Action>, b: seq<Action>, c: seq<Action>, d: seq<Action>)
    requires Exec(Start, a) == s3 && Exec(s3, b) == s6 && Exec(s6, c) == s8
    ensures Exec(Start, a + b + c + d) == Exec(s8, d)
  {
    ExecSplits(Start, a, b);
    ExecSplits(Start, a + b, c);
    ExecSplits(Start, a + b + c, d);
  }

  /** A CommitBid that reads the clock in time but inserts late gives a bidder a second bid. */
  lemma LateInsertAllowsSecondBid()
    ensures !OneBid(Exec(Start, LateRun()).db)
  {
    OpeningRuns();
    SecondCommitRuns();
    LateInsertRuns();
    SecondRevealRuns();
    RunsInParts(S3(), S6(), S8(), Opening(), SecondCommit(), [Advance(2, true), Advance(1, true)],
                [StartReveal(3, 0, 1, OFFER, true), Advance(3, true)]);
  }
}
