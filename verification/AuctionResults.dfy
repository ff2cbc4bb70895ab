/** What the auction's calls leave in the rows, column by column, and what every run keeps of it. */
module AuctionResults {
  import opened Common
  import opened Auction
  import opened AuctionSelection
  import opened AuctionRuns

  // ---- the winner of a run

  /** The state that the finalization of the RFQ read, and the clock reading it compared with. */
  lemma {:induction false} CountedFrom(schedule: seq<Action>, r: RfqId) returns (k: nat, now: int)
    requires r in Exec(Start, schedule).ballots
    ensures k < |schedule|
    ensures var s := Exec(Start, schedule[..k]);
      && r in s.db.rfqs && now > s.db.rfqs[r].revealDeadline
      && Exec(Start, schedule).ballots[r] == Ballot(s.db, r, now)
  {
    var n := |schedule| - 1;
    var s, a := Exec(Start, schedule[..n]), schedule[n];
    if r in s.ballots {
      InvAlways(schedule[..n]);
      BallotStays(s, a, r);
      k, now := CountedFrom(schedule[..n], r);
      assert schedule[..n][..k] == schedule[..k];
    } else {
      BallotIsTakenAfterReveals(s, a, r);
      k := n;
      now :| Finalizes(s.calls[a.t], r, now) && now > s.db.rfqs[r].revealDeadline
             && Step(s, a).ballots[r] == Ballot(s.db, r, now);
    }
  }

  /** In every run, an accepted bid of a sealed RFQ stood when the RFQ was finalized, after the reveal deadline,
      and came before every other bid that stood: cheaper, else shorter, else committed earlier, else of smaller id. */
  lemma AcceptedBidCameFirst(schedule: seq<Action>, b: BidId) returns (k: nat, now: int)
    requires b in Exec(Start, schedule).db.bids && Exec(Start, schedule).db.bids[b].status == Accepted
    requires var db := Exec(Start, schedule).db; db.bids[b].rfq in db.rfqs && db.rfqs[db.bids[b].rfq].sealed
    ensures k < |schedule|
    ensures var r, s := Exec(Start, schedule).db.bids[b].rfq, Exec(Start, schedule[..k]);
      r in s.db.rfqs && now > s.db.rfqs[r].revealDeadline && FirstChoice(s.db, r, now, Some(b))
  {
    OnlyTheBestBidIsAccepted(schedule, b);
    InvAlways(schedule);
    var t := Exec(Start, schedule);
    var r := t.db.bids[b].rfq;
    k, now := CountedFrom(schedule, r);
    assert RfqOk(t, r);
    WinnerIsFirstChoice(Exec(Start, schedule[..k]).db, r, now, Some(b));
  }

  // ---- single transactions, column by column

  /** Whether CommitBid's transaction goes through: no cooldown runs on a sealed RFQ, and neither the nonce nor
      the commitment has been used by the bidder there. */
  ghost predicate CommitPasses(db: Db, now: int, r: RfqId, bidder: Bidder, commitment: string, nonce: string) {
    && r in db.rfqs
    && !(db.rfqs[r].sealed && bidder in db.discipline && now < db.discipline[bidder].cooldownUntil)
    && forall c :: c in db.commits && db.commits[c].rfq == r && db.commits[c].bidder == bidder ==>
         db.commits[c].nonce != nonce && db.commits[c].commitment != commitment
  }

  /** CommitBid adds one open commit with the request's columns, supersedes the bidder's open ones in the RFQ,
      and touches nothing else; or it changes nothing. */
  lemma CommitStores(db: Db, now: int, at: int, r: RfqId, bidder: Bidder, commitment: string, nonce: string)
    requires db.nextCommit !in db.commits
    ensures var d, n := CommitTx(db, now, at, r, bidder, commitment, nonce), db.nextCommit;
      if !CommitPasses(db, now, r, bidder, commitment, nonce) then d == db
      else
        && d == db.(commits := d.commits, nextCommit := n + 1) && d.commits.Keys == db.commits.Keys + {n}
        && d.commits[n].rfq == r && d.commits[n].bidder == bidder && d.commits[n].createdAt == at
        && d.commits[n].commitment == commitment && d.commits[n].nonce == nonce
        && d.commits[n].status == Committed && d.commits[n].bid == None
        && forall c :: c in db.commits ==>
             if db.commits[c].rfq == r && db.commits[c].bidder == bidder && db.commits[c].status == Committed
             then d.commits[c] == db.commits[c].(status := Superseded) else d.commits[c] == db.commits[c]
  {
  }

  /** RevealBid adds a pending bid with the offer's columns and links the open commit to it; or nothing. */
  lemma RevealStores(db: Db, r: RfqId, c: CommitId, offer: Offer)
    requires db.nextBid !in db.bids
    ensures var d, n := RevealTx(db, r, c, offer), db.nextBid;
      if c !in db.commits || db.commits[c].status != Committed then d == db
      else
        && d == db.(bids := d.bids, commits := d.commits, nextBid := n + 1)
        && d.bids.Keys == db.bids.Keys + {n} && (forall b :: b in db.bids ==> d.bids[b] == db.bids[b])
        && d.bids[n].rfq == r && d.bids[n].offer == offer && d.bids[n].status == Pending
        && d.commits.Keys == db.commits.Keys
        && forall e :: e in db.commits ==>
             if e == c then d.commits[e].status == Revealed && d.commits[e].bid == Some(n)
                            && d.commits[e] == db.commits[e].(status := Revealed, bid := Some(n))
             else d.commits[e] == db.commits[e]
  {
  }

  /** Where the commit ends when bid b of RFQ r is accepted. */
  function SettledStatus(commit: Commit, r: RfqId, b: BidId): CommitStatus {
    if commit.bid == Some(b) then Won
    else if commit.rfq == r && (commit.status == Committed || commit.status == Revealed) then Lost
    else commit.status
  }

  /** AcceptBid accepts the pending bid, closes the RFQ, rejects its other pending bids, marks the commit that
      revealed the bid as the winner and the live others as lost, and touches nothing else; or nothing. */
  lemma AcceptSettles(db: Db, r: RfqId, b: BidId)
    ensures var d := AcceptTx(db, r, b);
      if b !in db.bids || db.bids[b].status != Pending || r !in db.rfqs then d == db
      else
        && d == db.(rfqs := d.rfqs, bids := d.bids, commits := d.commits)
        && d.rfqs == db.rfqs[r := db.rfqs[r].(status := Closed)]
        && d.bids.Keys == db.bids.Keys && d.commits.Keys == db.commits.Keys
        && (forall i :: i in db.bids ==>
              d.bids[i] == if i == b then db.bids[i].(status := Accepted)
                           else if db.bids[i].rfq == r && db.bids[i].status == Pending
                           then db.bids[i].(status := Rejected) else db.bids[i])
        && (forall c :: c in db.commits ==>
              d.commits[c] == db.commits[c].(status := SettledStatus(db.commits[c], r, b)))
  {
    if b in db.bids && db.bids[b].status == Pending && r in db.rfqs {
      var d := AcceptTx(db, r, b);
      AwardSettles(db, r, b);
      CommitsSettle(AwardBid(db, r, b), r, b);
    }
  }

  lemma AwardSettles(db: Db, r: RfqId, b: BidId)
    requires b in db.bids && db.bids[b].status == Pending && r in db.rfqs
    ensures var d := AwardBid(db, r, b);
      && d == db.(rfqs := db.rfqs[r := db.rfqs[r].(status := Closed)], bids := d.bids) && d.bids.Keys == db.bids.Keys
      && forall i :: i in db.bids ==>
           d.bids[i] == if i == b then db.bids[i].(status := Accepted)
                        else if db.bids[i].rfq == r && db.bids[i].status == Pending
                        then db.bids[i].(status := Rejected) else db.bids[i]
  {
  }

  lemma CommitsSettle(db: Db, r: RfqId, b: BidId)
    ensures var d := SettleCommits(db, r, b);
      && d == db.(commits := d.commits) && d.commits.Keys == db.commits.Keys
      && forall c :: c in db.commits ==>
           d.commits[c] == db.commits[c].(status := SettledStatus(db.commits[c], r, b))
  {
  }

  /** Fifteen minutes for the first strike, six hours for the second, a day for every later one. */
  function CooldownSeconds(strikes: int): int {
    if strikes <= 1 then 900 else if strikes == 2 then 21600 else 86400
  }

  /** A bidder left a commit of the RFQ open. */
  ghost predicate LeftOpen(db: Db, r: RfqId, bidder: Bidder) {
    exists c :: c in db.commits && db.commits[c].rfq == r && db.commits[c].status == Committed
                && db.commits[c].bidder == bidder
  }

  /** Finalization expires the RFQ's open commits, and strikes exactly the bidders who left one open, once each,
      with a cooldown that grows with the strikes and never shrinks; bids and other commits are untouched. */
  lemma FinalizationDisciplines(db: Db, now: int, r: RfqId, bidder: Bidder)
    requires r in db.rfqs && MayFinalize(db.rfqs[r], now)
    ensures var d := FinalizeTx(db, now, r);
      && d.bids == db.bids && d.commits.Keys == db.commits.Keys
      && (forall c :: c in db.commits ==>
            d.commits[c] == if db.commits[c].rfq == r && db.commits[c].status == Committed
                            then db.commits[c].(status := Expired) else db.commits[c])
      && (forall q :: q in db.rfqs && q != r ==> q in d.rfqs && d.rfqs[q] == db.rfqs[q])
    ensures var before, after := db.discipline, FinalizeTx(db, now, r).discipline;
      if LeftOpen(db, r, bidder) then
        var strikes := (if bidder in before then before[bidder].strikes else 0) + 1;
        && bidder in after && after[bidder].strikes == strikes
        && after[bidder].cooldownUntil >= now + CooldownSeconds(strikes)
        && (bidder in before ==> after[bidder].cooldownUntil >= before[bidder].cooldownUntil)
        && (after[bidder].cooldownUntil == now + CooldownSeconds(strikes)
            || (bidder in before && after[bidder].cooldownUntil == before[bidder].cooldownUntil))
      else (bidder in after <==> bidder in before) && (bidder in before ==> after[bidder] == before[bidder])
  {
    assert bidder in NonRevealers(db, r) <==> LeftOpen(db, r, bidder);
    FinalizationStrikes(db, now, r, bidder);
  }
}
