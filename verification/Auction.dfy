/** The sealed-bid auction: its rows, and what each database transaction does to them.

    Amounts are the parsed big integers; no amount stands for a string that does not parse.
    Credential checks and the commitment check enter as their results. Times are Unix seconds. */
module Auction {
  import opened Common
  import opened Sorting

  type RfqId = nat
  type BidId = nat
  type CommitId = nat
  type Bidder = string

  datatype RfqStatus = Open | Closed | Cancelled

  /** The stored sealed_bid_status. */
  datatype Sealing = Unset | CommitOpen | RevealOpen | Finalized | NoValidReveals

  datatype Rfq = Rfq(
    buyer: Bidder,
    sealed: bool,
    status: RfqStatus,
    commitDeadline: int,
    revealDeadline: int,
    deadline: int,
    budgetMin: int,
    budgetMax: int,
    needsCredentials: bool,
    sealing: Sealing,
    best: Option<BidId>,
    finalizedAt: int)

  datatype BidStatus = Pending | Accepted | Rejected
  datatype Bid = Bid(rfq: RfqId, offer: Offer, status: BidStatus)
  datatype Offer = Offer(bidder: Bidder, amount: Option<int>, duration: int, expiresAt: int, verified: bool)

  datatype CommitStatus = Committed | Revealed | Won | Lost | Expired | Superseded
  datatype Commit = Commit(
    rfq: RfqId,
    bidder: Bidder,
    commitment: string,
    nonce: string,
    status: CommitStatus,
    bid: Option<BidId>,
    createdAt: int)

  datatype Discipline = Discipline(strikes: int, cooldownUntil: int)

  datatype Db = Db(
    rfqs: map<RfqId, Rfq>,
    bids: map<BidId, Bid>,
    commits: map<CommitId, Commit>,
    discipline: map<Bidder, Discipline>,
    nextBid: BidId,
    nextCommit: CommitId)

  const EmptyDb := Db(map[], map[], map[], map[], 0, 0)

  // ---- the selection rule

  /** What the selection rule compares: amount, then duration, then commit time, then bid id. */
  datatype Candidate = Candidate(amount: int, duration: int, commitTime: int, bid: BidId)

  predicate CandidateLeq(a: Candidate, b: Candidate) {
    if a.amount != b.amount then a.amount < b.amount
    else if a.duration != b.duration then a.duration < b.duration
    else if a.commitTime != b.commitTime then a.commitTime < b.commitTime
    else a.bid <= b.bid
  }

  lemma CandidateOrderIsTotal()
    ensures TotalOrder(CandidateLeq)
  {
  }

  /** The commit that reveals a bid, as the unique index on revealed_bid_id finds it. */
  ghost predicate Reveals(db: Db, c: CommitId, b: BidId) {
    c in db.commits && db.commits[c].bid == Some(b)
  }

  /** At most one commit reveals a bid, as the unique index demands. */
  ghost predicate RevealsAreUnique(db: Db) {
    forall c, d, b {:trigger Reveals(db, c, b), Reveals(db, d, b)} :: Reveals(db, c, b) && Reveals(db, d, b) ==> c == d
  }

  /** The tests a bid itself must pass at finalization. */
  predicate Offers(db: Db, r: RfqId, now: int, b: BidId)
    requires r in db.rfqs
  {
    && b in db.bids && db.bids[b].rfq == r
    && db.bids[b].status == Pending && db.bids[b].offer.expiresAt > now
    && (db.rfqs[r].needsCredentials ==> db.bids[b].offer.verified)
    && db.bids[b].offer.amount.Some? && db.bids[b].offer.amount.value > 0
  }

  /** The candidate that bid b, revealed by commit c, makes. */
  function CandidateOf(db: Db, b: BidId, c: CommitId): Candidate
    requires b in db.bids && c in db.commits && db.bids[b].offer.amount.Some?
  {
    Candidate(db.bids[b].offer.amount.value, db.bids[b].offer.duration, db.commits[c].createdAt, b)
  }

  ghost predicate IsCandidate(db: Db, r: RfqId, now: int, b: BidId, c: CommitId)
    requires r in db.rfqs
  {
    Offers(db, r, now, b) && Reveals(db, c, b) && db.commits[c].status == Revealed
  }

  /** The bids that are eligible at a finalization. */
  ghost function Ballot(db: Db, r: RfqId, now: int): set<Candidate>
    requires r in db.rfqs
  {
    set b, c | b in db.bids && c in db.commits && IsCandidate(db, r, now, b, c) :: CandidateOf(db, b, c)
  }

  /** x comes strictly before every other candidate on the ballot. */
  ghost predicate BestOf(x: Candidate, ballot: set<Candidate>) {
    x in ballot && forall y :: y in ballot && y != x ==> CandidateLeq(x, y) && !CandidateLeq(y, x)
  }

  // ---- discipline

  const MINUTE := 60
  const HOUR := 3600

  function Cooldown(strikes: int): int {
    if strikes <= 1 then 15 * MINUTE else if strikes == 2 then 6 * HOUR else 24 * HOUR
  }

  function Max(a: int, b: int): int { if a > b then a else b }

  function StrikesOf(discipline: map<Bidder, Discipline>, bidder: Bidder): int {
    if bidder in discipline then discipline[bidder].strikes else 0
  }

  /** One more strike, and a cooldown that depends on the new count and never shrinks. */
  function Strike(discipline: map<Bidder, Discipline>, bidder: Bidder, now: int): Discipline {
    var strikes := StrikesOf(discipline, bidder) + 1;
    var until := now + Cooldown(strikes);
    Discipline(strikes, if bidder in discipline then Max(discipline[bidder].cooldownUntil, until) else until)
  }

  function NonRevealers(db: Db, r: RfqId): set<Bidder> {
    set c | c in db.commits && db.commits[c].rfq == r && db.commits[c].status == Committed :: db.commits[c].bidder
  }

  function Disciplined(discipline: map<Bidder, Discipline>, offenders: set<Bidder>, now: int): map<Bidder, Discipline> {
    map b | b in discipline.Keys + offenders :: if b in offenders then Strike(discipline, b, now) else discipline[b]
  }

  // ---- statements

  function SetRfq(db: Db, r: RfqId, rfq: Rfq): Db {
    db.(rfqs := db.rfqs[r := rfq])
  }

  function SetRfqStatus(db: Db, r: RfqId, status: RfqStatus): Db {
    if r in db.rfqs then SetRfq(db, r, db.rfqs[r].(status := status)) else db
  }

  /** UPDATE bid_commits SET status = 'expired' WHERE rfq_id = r AND status = 'committed'. */
  function ExpireCommitted(db: Db, r: RfqId): Db {
    db.(commits := map c | c in db.commits ::
      if db.commits[c].rfq == r && db.commits[c].status == Committed
      then db.commits[c].(status := Expired) else db.commits[c])
  }

  function SupersedeCommitted(db: Db, r: RfqId, bidder: Bidder): Db {
    db.(commits := map c | c in db.commits ::
      if db.commits[c].rfq == r && db.commits[c].bidder == bidder && db.commits[c].status == Committed
      then db.commits[c].(status := Superseded) else db.commits[c])
  }

  function RejectPending(db: Db, r: RfqId, except: Option<BidId>): Db {
    db.(bids := map b | b in db.bids ::
      if db.bids[b].rfq == r && Some(b) != except && db.bids[b].status == Pending
      then db.bids[b].(status := Rejected) else db.bids[b])
  }

  function MarkWinningCommit(db: Db, b: BidId): Db {
    db.(commits := map c | c in db.commits ::
      if db.commits[c].bid == Some(b) then db.commits[c].(status := Won) else db.commits[c])
  }

  function RejectUnaccepted(db: Db, r: RfqId, except: Option<BidId>): Db {
    db.(commits := map c | c in db.commits ::
      if && db.commits[c].rfq == r && (db.commits[c].status == Committed || db.commits[c].status == Revealed)
         && (db.commits[c].bid.None? || db.commits[c].bid != except)
      then db.commits[c].(status := Lost) else db.commits[c])
  }

  // ---- transactions

  predicate InCooldown(db: Db, bidder: Bidder, now: int) {
    bidder in db.discipline && db.discipline[bidder].cooldownUntil > now
  }

  /** The unique keys (rfq, bidder, nonce) and (rfq, bidder, commitment). */
  predicate Duplicate(db: Db, r: RfqId, bidder: Bidder, commitment: string, nonce: string) {
    exists c :: c in db.commits && db.commits[c].rfq == r && db.commits[c].bidder == bidder
                && (db.commits[c].nonce == nonce || db.commits[c].commitment == commitment)
  }

  /** CommitBid's transaction; now was read when the call began, at is the time of the insert. */
  function CommitTx(db: Db, now: int, at: int, r: RfqId, bidder: Bidder, commitment: string, nonce: string): Db {
    if r !in db.rfqs || (db.rfqs[r].sealed && InCooldown(db, bidder, now))
       || Duplicate(db, r, bidder, commitment, nonce)
    then db
    else
      var superseded := SupersedeCommitted(db, r, bidder);
      var commit := Commit(r, bidder, commitment, nonce, Committed, None, at);
      superseded.(commits := superseded.commits[db.nextCommit := commit],
                  nextCommit := db.nextCommit + 1)
  }

  /** RevealBid's transaction: insert the bid, and link it if the commit is still "committed". */
  function RevealTx(db: Db, r: RfqId, c: CommitId, offer: Offer): Db {
    if c !in db.commits || db.commits[c].status != Committed then db
    else
      db.(bids := db.bids[db.nextBid := Bid(r, offer, Pending)], nextBid := db.nextBid + 1,
          commits := db.commits[c := db.commits[c].(status := Revealed, bid := Some(db.nextBid))])
  }

  predicate IsFinal(rfq: Rfq) {
    rfq.sealing == Finalized || rfq.sealing == NoValidReveals
  }

  predicate MayFinalize(rfq: Rfq, now: int) {
    !IsFinal(rfq) && rfq.status == Open && now > rfq.revealDeadline
  }

  /** What FinalizeSealedBidding writes once it has its winner. */
  function Finalize(db: Db, now: int, r: RfqId, winner: Option<BidId>): Db
    requires r in db.rfqs
  {
    var disciplined := db.(discipline := Disciplined(db.discipline, NonRevealers(db, r), now));
    var expired := ExpireCommitted(disciplined, r);
    SetRfq(expired, r, db.rfqs[r].(sealing := if winner.Some? then Finalized else NoValidReveals,
                                   best := winner, finalizedAt := now))
  }

  /** The winner of a ballot: the unique first candidate, if there is any. */
  ghost predicate Wins(winner: Option<BidId>, ballot: set<Candidate>) {
    match winner
    case None => ballot == {}
    case Some(b) => exists x :: BestOf(x, ballot) && x.bid == b
  }

  ghost function Winner(ballot: set<Candidate>): (winner: Option<BidId>)
    ensures Wins(winner, ballot)
  {
    if ballot == {} then None
    else
      BestExists(ballot);
      var x :| BestOf(x, ballot);
      Some(x.bid)
  }

  lemma {:induction false} BestExists(ballot: set<Candidate>)
    requires ballot != {}
    ensures exists x :: BestOf(x, ballot)
  {
    var y :| y in ballot;
    if ballot == {y} {
      assert BestOf(y, ballot);
    } else {
      BestExists(ballot - {y});
      var x :| BestOf(x, ballot - {y});
      if CandidateLeq(x, y) {
        assert BestOf(x, ballot);
      } else {
        forall z | z in ballot && z != y ensures CandidateLeq(y, z) && !CandidateLeq(z, y) {
          assert z == x || CandidateLeq(x, z);
        }
        assert BestOf(y, ballot);
      }
    }
  }

  /** A ballot has one winner, whatever order its rows were listed in. */
  lemma WinnerIsUnique(v: Option<BidId>, w: Option<BidId>, ballot: set<Candidate>)
    requires Wins(v, ballot) && Wins(w, ballot)
    ensures v == w
  {
    if v.Some? && w.Some? {
      var x :| BestOf(x, ballot) && x.bid == v.value;
      var y :| BestOf(y, ballot) && y.bid == w.value;
      assert x == y;
    }
  }

  /** FinalizeSealedBidding's transaction. */
  ghost function FinalizeTx(db: Db, now: int, r: RfqId): Db {
    if r !in db.rfqs || !MayFinalize(db.rfqs[r], now) then db
    else Finalize(db, now, r, Winner(Ballot(db, r, now)))
  }

  /** The first half of AcceptBid's transaction: the bid, the RFQ and the other bids. */
  function AwardBid(db: Db, r: RfqId, b: BidId): Db
    requires b in db.bids
  {
    RejectPending(SetRfqStatus(db.(bids := db.bids[b := db.bids[b].(status := Accepted)]), r, Closed), r, Some(b))
  }

  /** The second half: the commits. */
  function SettleCommits(db: Db, r: RfqId, b: BidId): Db {
    RejectUnaccepted(MarkWinningCommit(db, b), r, Some(b))
  }

  /** AcceptBid's transaction, after the escrow has been created on the chain: a compare-and-set
      of the bid from pending to accepted, then everything else. */
  function AcceptTx(db: Db, r: RfqId, b: BidId): Db {
    if b !in db.bids || db.bids[b].status != Pending || r !in db.rfqs then db
    else SettleCommits(AwardBid(db, r, b), r, b)
  }
}
