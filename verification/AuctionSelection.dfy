/** The selection rule in the rows' own columns: which bids stand at a finalization, and which comes first. */
module AuctionSelection {
  import opened Common
  import opened Sorting
  import opened Auction

  /** Bid b of the RFQ is pending, unexpired, verified where the RFQ asks for credentials, and of a positive
      amount, and commit c is still "revealed" and links to it. */
  ghost predicate Stands(db: Db, r: RfqId, now: int, b: BidId, c: CommitId) {
    && r in db.rfqs && b in db.bids && c in db.commits
    && db.bids[b].rfq == r && db.bids[b].status == Pending && now < db.bids[b].offer.expiresAt
    && (db.rfqs[r].needsCredentials ==> db.bids[b].offer.verified)
    && db.bids[b].offer.amount.Some? && 0 < db.bids[b].offer.amount.value
    && db.commits[c].status == Revealed && db.commits[c].bid == Some(b)
  }

  /** The cheaper comes first; then the shorter; then the one committed earlier; then the smaller id. */
  predicate Precedes(amount: int, duration: int, committed: int, id: BidId,
                     otherAmount: int, otherDuration: int, otherCommitted: int, otherId: BidId) {
    || amount < otherAmount
    || (amount == otherAmount && duration < otherDuration)
    || (amount == otherAmount && duration == otherDuration && committed < otherCommitted)
    || (amount == otherAmount && duration == otherDuration && committed == otherCommitted && id < otherId)
  }

  /** Bid b, committed by c, comes before bid d, committed by e. */
  ghost predicate ComesBefore(db: Db, b: BidId, c: CommitId, d: BidId, e: CommitId)
    requires b in db.bids && d in db.bids && c in db.commits && e in db.commits
    requires db.bids[b].offer.amount.Some? && db.bids[d].offer.amount.Some?
  {
    Precedes(db.bids[b].offer.amount.value, db.bids[b].offer.duration, db.commits[c].createdAt, b,
             db.bids[d].offer.amount.value, db.bids[d].offer.duration, db.commits[e].createdAt, d)
  }

  /** The choice is the bid that stands and comes before every other that stands, or none where none stands. */
  ghost predicate FirstChoice(db: Db, r: RfqId, now: int, choice: Option<BidId>) {
    match choice
    case None => forall b, c :: !Stands(db, r, now, b, c)
    case Some(b) => exists c ::
      && Stands(db, r, now, b, c)
      && forall d, e :: Stands(db, r, now, d, e) && d != b ==> ComesBefore(db, b, c, d, e)
  }

  lemma StandingIsOnBallot(db: Db, r: RfqId, now: int, b: BidId, c: CommitId)
    requires Stands(db, r, now, b, c)
    ensures CandidateOf(db, b, c) in Ballot(db, r, now)
  {
    assert Reveals(db, c, b) && IsCandidate(db, r, now, b, c);
  }

  lemma OnBallotStands(db: Db, r: RfqId, now: int, x: Candidate) returns (c: CommitId)
    requires r in db.rfqs && x in Ballot(db, r, now)
    ensures Stands(db, r, now, x.bid, c) && x == CandidateOf(db, x.bid, c)
  {
    var b, e :| b in db.bids && e in db.commits && IsCandidate(db, r, now, b, e) && x == CandidateOf(db, b, e);
    c := e;
    assert Reveals(db, e, b);
  }

  /** The ballot has the columns of exactly the bids that stand. */
  lemma BallotIsWhoStands(db: Db, r: RfqId, now: int, amount: int, duration: int, committed: int, b: BidId)
    requires r in db.rfqs
    ensures Candidate(amount, duration, committed, b) in Ballot(db, r, now) <==> exists c ::
      && Stands(db, r, now, b, c) && db.bids[b].offer.amount.value == amount
      && db.bids[b].offer.duration == duration && db.commits[c].createdAt == committed
  {
    var x := Candidate(amount, duration, committed, b);
    if x in Ballot(db, r, now) { var c := OnBallotStands(db, r, now, x); }
    if c :| && Stands(db, r, now, b, c) && db.bids[b].offer.amount.value == amount
            && db.bids[b].offer.duration == duration && db.commits[c].createdAt == committed {
      StandingIsOnBallot(db, r, now, b, c);
    }
  }

  /** The order in which candidates are sorted is that of their columns. */
  lemma OrderSpelledOut(x: Candidate, y: Candidate)
    ensures CandidateLeq(x, y) <==> (x == y || CandidatePrecedes(x, y))
  {
  }

  predicate CandidatePrecedes(x: Candidate, y: Candidate) {
    Precedes(x.amount, x.duration, x.commitTime, x.bid, y.amount, y.duration, y.commitTime, y.bid)
  }

  lemma SortedIsInOrder(candidates: seq<Candidate>)
    requires SortedBy(CandidateLeq, candidates)
    ensures forall i, j :: 0 <= i < j < |candidates| && candidates[i] != candidates[j] ==>
      CandidatePrecedes(candidates[i], candidates[j])
  {
    forall i, j | 0 <= i < j < |candidates| && candidates[i] != candidates[j]
      ensures CandidatePrecedes(candidates[i], candidates[j])
    {
      assert CandidateLeq(candidates[i], candidates[j]);
      OrderSpelledOut(candidates[i], candidates[j]);
    }
  }

  /** The winner of a ballot is the first choice among the rows it was counted from. */
  lemma WinnerIsFirstChoice(db: Db, r: RfqId, now: int, winner: Option<BidId>)
    requires r in db.rfqs && Wins(winner, Ballot(db, r, now))
    ensures FirstChoice(db, r, now, winner)
  {
    if winner.None? {
      forall b, c ensures !Stands(db, r, now, b, c) {
        if Stands(db, r, now, b, c) { StandingIsOnBallot(db, r, now, b, c); }
      }
    } else {
      var x :| BestOf(x, Ballot(db, r, now)) && x.bid == winner.value;
      var c := OnBallotStands(db, r, now, x);
      forall d, e | Stands(db, r, now, d, e) && d != x.bid ensures ComesBefore(db, x.bid, c, d, e) {
        StandingIsOnBallot(db, r, now, d, e);
        OrderSpelledOut(x, CandidateOf(db, d, e));
      }
    }
  }

  /** What a finalization that goes through leaves in its RFQ. */
  lemma FinalizationChooses(db: Db, now: int, r: RfqId)
    requires r in db.rfqs && db.rfqs[r].status == Open && now > db.rfqs[r].revealDeadline
    requires db.rfqs[r].sealing != Finalized && db.rfqs[r].sealing != NoValidReveals
    ensures r in FinalizeTx(db, now, r).rfqs
    ensures var before, after := db.rfqs[r], FinalizeTx(db, now, r).rfqs[r];
      && FirstChoice(db, r, now, after.best)
      && after == before.(best := after.best, finalizedAt := now,
                          sealing := if after.best.Some? then Finalized else NoValidReveals)
  {
    WinnerIsFirstChoice(db, r, now, Winner(Ballot(db, r, now)));
  }
}
