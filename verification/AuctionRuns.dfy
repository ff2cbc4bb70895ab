/** Every interleaving of the auction's service calls.

    A call reads the clock and the tables once or more before it opens its transaction, and other
    calls may run in between. Each read and each transaction is one step; a schedule is any
    sequence of steps, and a step that is not enabled leaves the state alone. */
module AuctionRuns {
  import opened Common
  import opened Auction

  type Tid = nat

  /** Where a call is between two steps, with what it has read so far. */
  datatype Pc =
    | CommitReady(now: int, r: RfqId, bidder: Bidder, commitment: string, nonce: string)
    | RevealReady(r: RfqId, c: CommitId, offer: Offer)
    | ExpireReady(r: RfqId)
    | FinalizeReady(now: int, r: RfqId)
    | AcceptStarted(now: int, r: RfqId, b: BidId)
    | AcceptFinalizing(now: int, r: RfqId, b: BidId, at: int)
    | AcceptChosen(now: int, r: RfqId, b: BidId, best: Option<BidId>)
    | AcceptOpen(now: int, r: RfqId, b: BidId)
    | AcceptBidRead(r: RfqId, b: BidId)
    | AcceptSending(r: RfqId, b: BidId)
    | AcceptReady(r: RfqId, b: BidId)
    | CancelReady(r: RfqId)
    | CancelRejecting(r: RfqId)
    | CancelUndoing(r: RfqId)
    | CancelLosing(r: RfqId)
    | Done

  /** An escrow created on the chain by an accepting call. */
  datatype Send = Send(t: Tid, r: RfqId, b: BidId)

  /** The tables, the clock, the calls, and two histories: the ballots finalizations counted, and the
      escrows accepting calls created on the chain. */
  datatype Sys = Sys(db: Db, clock: int, calls: map<Tid, Pc>, ballots: map<RfqId, set<Candidate>>, sends: seq<Send>)

  const Start := Sys(EmptyDb, 0, map[], map[], [])

  datatype Action =
    | Tick(seconds: nat)
    | CreateRfq(r: RfqId, rfq: Rfq)
    | StartCommit(t: Tid, r: RfqId, bidder: Bidder, commitment: string, nonce: string)
    | StartReveal(t: Tid, r: RfqId, c: CommitId, offer: Offer, valid: bool)
    | StartFinalize(t: Tid, r: RfqId)
    | StartAccept(t: Tid, r: RfqId, b: BidId)
    | StartCancel(t: Tid, r: RfqId)
    | Advance(t: Tid, ok: bool)

  // ---- how calls begin

  predicate FreshRfq(rfq: Rfq, now: int) {
    && rfq.status == Open && !IsFinal(rfq) && rfq.best.None?
    && now < rfq.commitDeadline <= rfq.revealDeadline <= rfq.deadline
  }

  /** CommitBid up to its transaction. */
  function BeginCommit(s: Sys, r: RfqId, bidder: Bidder, commitment: string, nonce: string): Pc
    requires r in s.db.rfqs
  {
    var rfq := s.db.rfqs[r];
    if rfq.status == Open && s.clock < rfq.commitDeadline && bidder != rfq.buyer
    then CommitReady(s.clock, r, bidder, commitment, nonce) else Done
  }

  /** RevealBid up to its transaction; valid says whether the commitment and the credentials check out. */
  function BeginReveal(s: Sys, r: RfqId, c: CommitId, offer: Offer, valid: bool): Pc
    requires r in s.db.rfqs
  {
    var rfq := s.db.rfqs[r];
    if rfq.status != Open || s.clock < rfq.commitDeadline then Done
    else if s.clock > rfq.revealDeadline then ExpireReady(r)
    else if && offer.bidder != rfq.buyer && c in s.db.commits && valid
            && s.db.commits[c].rfq == r && s.db.commits[c].bidder == offer.bidder && s.db.commits[c].status == Committed
            && offer.duration >= 0 && offer.amount.Some? && offer.amount.value > 0
            && rfq.budgetMin <= offer.amount.value <= rfq.budgetMax
            && s.clock < offer.expiresAt <= rfq.deadline
    then RevealReady(r, c, offer) else Done
  }

  function BeginFinalize(s: Sys, r: RfqId): Pc
    requires r in s.db.rfqs
  {
    if s.db.rfqs[r].sealed && MayFinalize(s.db.rfqs[r], s.clock) then FinalizeReady(s.clock, r) else Done
  }

  function BeginAccept(s: Sys, r: RfqId, b: BidId): Pc
    requires r in s.db.rfqs
  {
    var rfq := s.db.rfqs[r];
    if rfq.status != Open then Done
    else if !rfq.sealed then AcceptOpen(s.clock, r, b)
    else if s.clock > rfq.revealDeadline then AcceptStarted(s.clock, r, b)
    else Done
  }

  // ---- how calls go on

  function Goto(s: Sys, t: Tid, pc: Pc): Sys {
    s.(calls := s.calls[t := pc])
  }

  /** The transactions of the auction. */
  datatype Tx =
    | Nothing
    | InsertCommit(now: int, at: int, r: RfqId, bidder: Bidder, commitment: string, nonce: string)
    | LinkReveal(r: RfqId, c: CommitId, offer: Offer)
    | Expire(r: RfqId)
    | Count(now: int, r: RfqId)
    | Award(r: RfqId, b: BidId)
    | SetStatus(r: RfqId, status: RfqStatus)
    | RejectBids(r: RfqId)
    | LoseCommits(r: RfqId)

  ghost function Apply(db: Db, tx: Tx): Db {
    match tx
    case Nothing => db
    case InsertCommit(now, at, r, bidder, commitment, nonce) => CommitTx(db, now, at, r, bidder, commitment, nonce)
    case LinkReveal(r, c, offer) => RevealTx(db, r, c, offer)
    case Expire(r) => ExpireCommitted(db, r)
    case Count(now, r) => FinalizeTx(db, now, r)
    case Award(r, b) => AcceptTx(db, r, b)
    case SetStatus(r, status) => SetRfqStatus(db, r, status)
    case RejectBids(r) => RejectPending(db, r, None)
    case LoseCommits(r) => RejectUnaccepted(db, r, None)
  }

  /** The transaction a call is about to run. */
  function TxOf(pc: Pc, clock: int): Tx {
    match pc
    case CommitReady(now, r, bidder, commitment, nonce) => InsertCommit(now, clock, r, bidder, commitment, nonce)
    case RevealReady(r, c, offer) => LinkReveal(r, c, offer)
    case ExpireReady(r) => Expire(r)
    case FinalizeReady(now, r) => Count(now, r)
    case AcceptFinalizing(_, r, _, at) => Count(at, r)
    case AcceptReady(r, b) => Award(r, b)
    case CancelReady(r) => SetStatus(r, Cancelled)
    case CancelRejecting(r) => RejectBids(r)
    case CancelUndoing(r) => SetStatus(r, Open)
    case CancelLosing(r) => LoseCommits(r)
    case _ => Nothing
  }

  /** The nested FinalizeSealedBidding's first look at the RFQ. */
  function PreviewFinal(s: Sys, pc: Pc): Pc
    requires pc.AcceptStarted?
  {
    if pc.r !in s.db.rfqs then Done
    else
      var rfq := s.db.rfqs[pc.r];
      if IsFinal(rfq) || rfq.status != Open then AcceptChosen(pc.now, pc.r, pc.b, rfq.best)
      else if s.clock <= rfq.revealDeadline then Done
      else AcceptFinalizing(pc.now, pc.r, pc.b, s.clock)
  }

  /** The tests on the bid, as it is read after finalization. */
  function CheckBid(s: Sys, now: int, r: RfqId, b: BidId): Pc {
    if && r in s.db.rfqs && s.db.rfqs[r].deadline > now
       && b in s.db.bids && s.db.bids[b].rfq == r && s.db.bids[b].status == Pending
       && s.db.bids[b].offer.expiresAt > now
       && (s.db.rfqs[r].needsCredentials ==> s.db.bids[b].offer.verified)
    then AcceptBidRead(r, b) else Done
  }

  ghost function CheckCommit(s: Sys, r: RfqId, b: BidId): Pc {
    if exists c :: Reveals(s.db, c, b) && s.db.commits[c].status == Revealed then AcceptSending(r, b) else Done
  }

  /** Where the call goes from pc, after its transaction has turned the tables into db. */
  ghost function After(s: Sys, pc: Pc, ok: bool, db: Db): Pc {
    match pc
    case AcceptStarted(_, _, _) => PreviewFinal(s, pc)
    case AcceptFinalizing(now, r, b, _) => if ok && r in db.rfqs then AcceptChosen(now, r, b, db.rfqs[r].best) else Done
    case AcceptChosen(now, r, b, best) => if best == Some(b) then CheckBid(s, now, r, b) else Done
    case AcceptOpen(now, r, b) => CheckBid(s, now, r, b)
    case AcceptBidRead(r, b) => CheckCommit(s, r, b)
    case AcceptSending(r, b) => if ok then AcceptReady(r, b) else Done
    case CancelReady(r) => if ok then CancelRejecting(r) else Done
    case CancelRejecting(r) => if ok then CancelLosing(r) else CancelUndoing(r)
    case _ => Done
  }

  predicate Counts(db: Db, tx: Tx) {
    tx.Count? && tx.r in db.rfqs && MayFinalize(db.rfqs[tx.r], tx.now)
  }

  function Sent(t: Tid, pc: Pc, ok: bool): seq<Send> {
    if ok && pc.AcceptSending? then [Send(t, pc.r, pc.b)] else []
  }

  /** The next step of call t; ok says whether its transaction, or its chain call, succeeds. A
      finalization enters the ballot it counts in the history, a chain call its escrow. */
  ghost function AdvanceCall(s: Sys, t: Tid, ok: bool): Sys
    requires t in s.calls
  {
    var tx := if ok then TxOf(s.calls[t], s.clock) else Nothing;
    var db := Apply(s.db, tx);
    s.(db := db,
       calls := s.calls[t := After(s, s.calls[t], ok, db)],
       ballots := if Counts(s.db, tx) then s.ballots[tx.r := Ballot(s.db, tx.r, tx.now)] else s.ballots,
       sends := s.sends + Sent(t, s.calls[t], ok))
  }

  /** The transaction a step runs; nothing if it runs none. */
  function TxOfStep(s: Sys, a: Action): Tx {
    if a.Advance? && a.t in s.calls && a.ok then TxOf(s.calls[a.t], s.clock) else Nothing
  }

  /** The first point of a new call. */
  function Begin(s: Sys, a: Action): Pc
    requires !a.Tick? && !a.CreateRfq? && !a.Advance? && a.r in s.db.rfqs
  {
    match a
    case StartCommit(_, r, bidder, commitment, nonce) => BeginCommit(s, r, bidder, commitment, nonce)
    case StartReveal(_, r, c, offer, valid) => BeginReveal(s, r, c, offer, valid)
    case StartFinalize(_, r) => BeginFinalize(s, r)
    case StartAccept(_, r, b) => BeginAccept(s, r, b)
    case StartCancel(_, r) => if s.db.rfqs[r].status == Open then CancelReady(r) else Done
  }

  ghost function Step(s: Sys, a: Action): Sys {
    if a.Tick? then s.(clock := s.clock + a.seconds)
    else if a.CreateRfq? then
      if a.r !in s.db.rfqs && FreshRfq(a.rfq, s.clock) then s.(db := SetRfq(s.db, a.r, a.rfq)) else s
    else if a.Advance? then
      if a.t in s.calls then AdvanceCall(s, a.t, a.ok) else s
    else if a.t in s.calls || a.r !in s.db.rfqs then s
    else Goto(s, a.t, Begin(s, a))
  }

  ghost function Exec(s: Sys, schedule: seq<Action>): Sys {
    if schedule == [] then s
    else Step(Exec(s, schedule[..|schedule| - 1]), schedule[|schedule| - 1])
  }

  // ---- what no step undoes

  ghost predicate RfqGrows(a: Rfq, b: Rfq) {
    && b.sealed == a.sealed && b.commitDeadline == a.commitDeadline && b.revealDeadline == a.revealDeadline
    && (IsFinal(a) ==> b.sealing == a.sealing && b.best == a.best && b.finalizedAt == a.finalizedAt)
  }

  ghost predicate BidGrows(a: Bid, b: Bid) {
    b.rfq == a.rfq && b.offer == a.offer && (a.status != Pending ==> b.status == a.status)
  }

  ghost predicate DisciplineGrows(a: Discipline, b: Discipline) {
    b.strikes >= a.strikes && b.cooldownUntil >= a.cooldownUntil
  }

  /** Still in the auction. */
  predicate Live(commit: Commit) {
    commit.status == Committed || commit.status == Revealed
  }

  ghost predicate CommitGrows(a: Commit, b: Commit) {
    b.rfq == a.rfq && b.bidder == a.bidder && b.createdAt == a.createdAt && (a.bid.Some? ==> b.bid == a.bid)
  }

  /** A finalized RFQ keeps its result, a decided bid its status, a revealed commit its bid, and
      discipline never relaxes. */
  ghost predicate Grows(a: Db, b: Db) {
    && (forall r :: r in a.rfqs ==> r in b.rfqs && RfqGrows(a.rfqs[r], b.rfqs[r]))
    && (forall i :: i in a.bids ==> i in b.bids && BidGrows(a.bids[i], b.bids[i]))
    && (forall c :: c in a.commits ==> c in b.commits && CommitGrows(a.commits[c], b.commits[c]))
    && (forall d :: d in a.discipline ==> d in b.discipline && DisciplineGrows(a.discipline[d], b.discipline[d]))
  }

  ghost predicate IdsOk(db: Db) {
    && (forall b :: b in db.bids ==> b < db.nextBid)
    && (forall c :: c in db.commits ==> c < db.nextCommit)
    && (forall c, b {:trigger Reveals(db, c, b)} ::
          Reveals(db, c, b) ==> b in db.bids && db.bids[b].rfq == db.commits[c].rfq)
    && RevealsAreUnique(db)
  }

  /** An unrevealed commit links to no bid, a revealed one to some bid. */
  ghost predicate LinksOk(db: Db) {
    && (forall c :: c in db.commits && db.commits[c].status == Committed ==> db.commits[c].bid.None?)
    && (forall c :: c in db.commits && db.commits[c].status == Revealed ==> db.commits[c].bid.Some?)
  }

  /** What the caller of a transaction has established about its arguments. */
  ghost predicate Fits(db: Db, tx: Tx) {
    match tx
    case LinkReveal(r, c, offer) =>
      r in db.rfqs && c in db.commits && db.commits[c].rfq == r && db.commits[c].bidder == offer.bidder
    case Award(r, b) =>
      && r in db.rfqs && b in db.bids && db.bids[b].rfq == r
      && (db.rfqs[r].sealed ==> db.rfqs[r].best == Some(b))
    case _ => true
  }

  lemma FinalizeGrows(db: Db, now: int, r: RfqId)
    ensures Grows(db, FinalizeTx(db, now, r))
  {
  }

  lemma GrowsReflexive(db: Db)
    ensures Grows(db, db)
  {
  }

  lemma GrowsTransitive(a: Db, b: Db, c: Db)
    requires Grows(a, b) && Grows(b, c)
    ensures Grows(a, c)
  {
  }

  lemma AwardGrows(db: Db, r: RfqId, b: BidId)
    requires b in db.bids && db.bids[b].status == Pending
    ensures Grows(db, AwardBid(db, r, b))
  {
  }

  lemma SettleGrows(db: Db, r: RfqId, b: BidId)
    ensures Grows(db, SettleCommits(db, r, b))
  {
  }

  lemma AcceptGrows(db: Db, r: RfqId, b: BidId)
    ensures Grows(db, AcceptTx(db, r, b))
  {
    if b in db.bids && db.bids[b].status == Pending && r in db.rfqs {
      AwardGrows(db, r, b);
      SettleGrows(AwardBid(db, r, b), r, b);
      GrowsTransitive(db, AwardBid(db, r, b), AcceptTx(db, r, b));
    } else {
      assert Grows(db, db);
    }
  }

  lemma InsertGrows(db: Db, now: int, at: int, r: RfqId, bidder: Bidder, commitment: string, nonce: string)
    requires IdsOk(db)
    ensures Grows(db, CommitTx(db, now, at, r, bidder, commitment, nonce))
  {
  }

  lemma RevealGrows(db: Db, r: RfqId, c: CommitId, offer: Offer)
    requires IdsOk(db) && LinksOk(db)
    ensures Grows(db, RevealTx(db, r, c, offer))
  {
  }

  lemma StatusGrows(db: Db, r: RfqId, status: RfqStatus)
    ensures Grows(db, SetRfqStatus(db, r, status))
  {
  }

  lemma RejectGrows(db: Db, r: RfqId, except: Option<BidId>)
    ensures Grows(db, RejectPending(db, r, except))
  {
  }

  lemma LoseGrows(db: Db, r: RfqId)
    ensures Grows(db, RejectUnaccepted(db, r, None)) && Grows(db, ExpireCommitted(db, r))
  {
  }

  lemma TxGrows(db: Db, tx: Tx)
    requires IdsOk(db) && LinksOk(db)
    ensures Grows(db, Apply(db, tx))
  {
    match tx
    case Nothing => GrowsReflexive(db);
    case InsertCommit(now, at, r, bidder, commitment, nonce) => InsertGrows(db, now, at, r, bidder, commitment, nonce);
    case LinkReveal(r, c, offer) => RevealGrows(db, r, c, offer);
    case Expire(r) => LoseGrows(db, r);
    case Count(now, r) => FinalizeGrows(db, now, r);
    case Award(r, b) => AcceptGrows(db, r, b);
    case SetStatus(r, status) => StatusGrows(db, r, status);
    case RejectBids(r) => RejectGrows(db, r, None);
    case LoseCommits(r) => LoseGrows(db, r);
  }

  lemma StepGrows(s: Sys, a: Action)
    requires IdsOk(s.db) && LinksOk(s.db)
    ensures Grows(s.db, Step(s, a).db) && Step(s, a).clock >= s.clock
  {
    var n := Step(s, a);
    if a.Advance? && a.t in s.calls {
      TxGrows(s.db, if a.ok then TxOf(s.calls[a.t], s.clock) else Nothing);
    } else if a.CreateRfq? {
      assert Grows(s.db, SetRfq(s.db, a.r, a.rfq)) || a.r in s.db.rfqs;
      assert Grows(s.db, s.db);
    } else {
      assert n.db == s.db;
    }
  }

  // ---- the invariant

  /** An RFQ is final exactly when its ballot has been counted, and then it names that ballot's winner. */
  ghost predicate RfqOk(s: Sys, r: RfqId)
    requires r in s.db.rfqs
  {
    var rfq := s.db.rfqs[r];
    && (IsFinal(rfq) <==> r in s.ballots)
    && (rfq.sealing == Finalized <==> rfq.best.Some?)
    && (r in s.ballots ==> Wins(rfq.best, s.ballots[r]))
  }

  /** On a sealed RFQ only the named winner is ever accepted. */
  ghost predicate BidOk(db: Db, b: BidId)
    requires b in db.bids
  {
    var Bid(r, _, status) := db.bids[b];
    r in db.rfqs && (status == Accepted && db.rfqs[r].sealed ==> db.rfqs[r].best == Some(b))
  }

  /** What a call has read stays true while it waits. */
  ghost predicate CallOk(db: Db, pc: Pc) {
    match pc
    case RevealReady(r, c, offer) => Fits(db, LinkReveal(r, c, offer))
    case FinalizeReady(_, r) => r in db.rfqs && db.rfqs[r].sealed
    case AcceptStarted(_, r, _) => r in db.rfqs && db.rfqs[r].sealed
    case AcceptFinalizing(_, r, _, _) => r in db.rfqs && db.rfqs[r].sealed
    case AcceptChosen(_, r, _, best) => r in db.rfqs && (best.Some? ==> IsFinal(db.rfqs[r]) && db.rfqs[r].best == best)
    case AcceptOpen(_, r, _) => r in db.rfqs && !db.rfqs[r].sealed
    case AcceptBidRead(r, b) => Fits(db, Award(r, b))
    case AcceptSending(r, b) => Fits(db, Award(r, b))
    case AcceptReady(r, b) => Fits(db, Award(r, b))
    case _ => true
  }

  ghost predicate Inv(s: Sys) {
    && IdsOk(s.db) && LinksOk(s.db)
    && (forall r :: r in s.db.rfqs ==> RfqOk(s, r))
    && (forall r :: r in s.ballots ==> r in s.db.rfqs)
    && (forall b :: b in s.db.bids ==> BidOk(s.db, b))
    && (forall t :: t in s.calls ==> CallOk(s.db, s.calls[t]))
  }

  /** A change of statuses only, that makes no commit live. */
  ghost predicate StatusOnly(a: Db, b: Db) {
    && b.commits.Keys == a.commits.Keys && b.bids.Keys == a.bids.Keys
    && b.nextBid == a.nextBid && b.nextCommit == a.nextCommit
    && (forall c :: c in a.commits ==> b.commits[c] == a.commits[c].(status := b.commits[c].status))
    && (forall c :: c in a.commits && Live(b.commits[c]) ==> b.commits[c] == a.commits[c])
    && (forall i :: i in a.bids ==> b.bids[i] == a.bids[i].(status := b.bids[i].status))
  }

  lemma StatusOnlyKeepsIds(a: Db, b: Db)
    requires IdsOk(a) && LinksOk(a) && StatusOnly(a, b)
    ensures IdsOk(b) && LinksOk(b)
  {
    forall c, i | Reveals(b, c, i) ensures Reveals(a, c, i) {
      assert b.commits[c] == a.commits[c].(status := b.commits[c].status);
    }
  }

  lemma AwardIsStatusOnly(db: Db, r: RfqId, b: BidId)
    requires b in db.bids
    ensures StatusOnly(db, AwardBid(db, r, b))
  {
  }

  lemma SettleIsStatusOnly(db: Db, r: RfqId, b: BidId)
    ensures StatusOnly(db, SettleCommits(db, r, b))
  {
  }

  lemma OtherTxIsStatusOnly(db: Db, tx: Tx)
    requires !tx.InsertCommit? && !tx.LinkReveal? && !tx.Award?
    ensures StatusOnly(db, Apply(db, tx))
  {
  }

  lemma RevealKeepsIds(db: Db, r: RfqId, c: CommitId, offer: Offer)
    requires IdsOk(db) && LinksOk(db) && Fits(db, LinkReveal(r, c, offer))
    ensures IdsOk(RevealTx(db, r, c, offer)) && LinksOk(RevealTx(db, r, c, offer))
  {
    var d := RevealTx(db, r, c, offer);
    forall e, b | Reveals(d, e, b)
      ensures (e == c && b == db.nextBid && d != db) || Reveals(db, e, b)
    {
    }
  }

  lemma InsertKeepsIds(db: Db, now: int, at: int, r: RfqId, bidder: Bidder, commitment: string, nonce: string)
    requires IdsOk(db) && LinksOk(db)
    ensures IdsOk(CommitTx(db, now, at, r, bidder, commitment, nonce))
    ensures LinksOk(CommitTx(db, now, at, r, bidder, commitment, nonce))
  {
    var d := CommitTx(db, now, at, r, bidder, commitment, nonce);
    forall c, b | Reveals(d, c, b) ensures Reveals(db, c, b) {
    }
  }

  lemma TxKeepsIds(db: Db, tx: Tx)
    requires IdsOk(db) && LinksOk(db) && Fits(db, tx)
    ensures IdsOk(Apply(db, tx)) && LinksOk(Apply(db, tx))
  {
    if tx.InsertCommit? {
      InsertKeepsIds(db, tx.now, tx.at, tx.r, tx.bidder, tx.commitment, tx.nonce);
    } else if tx.LinkReveal? {
      RevealKeepsIds(db, tx.r, tx.c, tx.offer);
    } else {
      if tx.Award? {
        AwardIsStatusOnly(db, tx.r, tx.b);
        StatusOnlyKeepsIds(db, AwardBid(db, tx.r, tx.b));
        SettleIsStatusOnly(AwardBid(db, tx.r, tx.b), tx.r, tx.b);
        StatusOnlyKeepsIds(AwardBid(db, tx.r, tx.b), SettleCommits(AwardBid(db, tx.r, tx.b), tx.r, tx.b));
      } else {
        OtherTxIsStatusOnly(db, tx);
        StatusOnlyKeepsIds(db, Apply(db, tx));
      }
    }
  }

  lemma CallOkGrows(a: Db, b: Db, pc: Pc)
    requires Grows(a, b) && CallOk(a, pc)
    requires forall r :: r in a.rfqs ==> (a.rfqs[r].best.Some? ==> IsFinal(a.rfqs[r]))
    ensures CallOk(b, pc)
  {
  }

  /** Only a finalization touches an RFQ's result, and it only names a winner where none was named. */
  lemma TxKeepsResults(db: Db, tx: Tx, r: RfqId)
    requires r in db.rfqs && r in Apply(db, tx).rfqs
    ensures var a, b := db.rfqs[r], Apply(db, tx).rfqs[r];
      && b.sealed == a.sealed
      && ((b.sealing == a.sealing && b.best == a.best) || (Counts(db, tx) && tx.r == r))
  {
  }

  lemma TxKeepsRfqs(s: Sys, tx: Tx, t: Sys)
    requires IdsOk(s.db) && LinksOk(s.db)
    requires forall r :: r in s.db.rfqs ==> RfqOk(s, r)
    requires t.db == Apply(s.db, tx)
    requires t.ballots == if Counts(s.db, tx) then s.ballots[tx.r := Ballot(s.db, tx.r, tx.now)] else s.ballots
    ensures t.db.rfqs.Keys == s.db.rfqs.Keys
    ensures forall r :: r in t.db.rfqs ==> RfqOk(t, r)
  {
    assert t.db.rfqs.Keys == s.db.rfqs.Keys;
    forall r | r in t.db.rfqs ensures RfqOk(t, r) {
      assert RfqOk(s, r);
      TxKeepsResults(s.db, tx, r);
    }
  }

  lemma TxKeepsBids(db: Db, tx: Tx)
    requires IdsOk(db) && Fits(db, tx)
    requires tx.Count? && tx.r in db.rfqs ==> IsFinal(db.rfqs[tx.r]) || db.rfqs[tx.r].best.None?
    requires forall b :: b in db.bids ==> BidOk(db, b)
    ensures forall b :: b in Apply(db, tx).bids ==> BidOk(Apply(db, tx), b)
  {
    var d := Apply(db, tx);
    assert d.rfqs.Keys == db.rfqs.Keys;
    forall b | b in d.bids ensures BidOk(d, b) {
      TxAccepts(db, tx, b);
      if b in db.bids {
        assert BidOk(db, b);
        TxKeepsResults(db, tx, d.bids[b].rfq);
      }
    }
  }

  /** Only an award accepts a bid. */
  lemma TxAccepts(db: Db, tx: Tx, b: BidId)
    requires IdsOk(db) && Fits(db, tx) && b in Apply(db, tx).bids
    ensures var d := Apply(db, tx);
      && (d.bids[b].rfq in d.rfqs || b in db.bids)
      && (b in db.bids ==> d.bids[b].rfq == db.bids[b].rfq)
      && (d.bids[b].status == Accepted ==> b in db.bids && (db.bids[b].status == Accepted || (tx.Award? && tx.b == b)))
  {
  }

  /** A call's next point is justified by what it read or wrote in this step. */
  lemma NextCallOk(s: Sys, pc: Pc, ok: bool, db: Db)
    requires CallOk(s.db, pc) && Grows(s.db, db)
    requires forall r :: r in s.db.rfqs ==> RfqOk(s, r)
    requires forall r :: r in db.rfqs ==> (db.rfqs[r].best.Some? ==> IsFinal(db.rfqs[r]))
    ensures CallOk(db, After(s, pc, ok, db))
  {
    assert forall r :: r in s.db.rfqs ==> (s.db.rfqs[r].best.Some? ==> IsFinal(s.db.rfqs[r]));
  }

  lemma AdvanceKeepsInv(s: Sys, t: Tid, ok: bool)
    requires Inv(s) && t in s.calls
    ensures Inv(AdvanceCall(s, t, ok))
  {
    var tx := if ok then TxOf(s.calls[t], s.clock) else Nothing;
    var n := AdvanceCall(s, t, ok);
    assert CallOk(s.db, s.calls[t]) && Fits(s.db, tx);
    TxGrows(s.db, tx);
    TxKeepsIds(s.db, tx);
    TxKeepsRfqs(s, tx, n);
    assert forall r :: r in s.db.rfqs ==> RfqOk(s, r);
    TxKeepsBids(s.db, tx);
    AdvanceKeepsCalls(s, t, ok, tx, n);
  }

  lemma AdvanceKeepsCalls(s: Sys, t: Tid, ok: bool, tx: Tx, n: Sys)
    requires Inv(s) && t in s.calls && n == AdvanceCall(s, t, ok) && Grows(s.db, n.db)
    requires forall r :: r in n.db.rfqs ==> RfqOk(n, r)
    ensures forall u :: u in n.calls ==> CallOk(n.db, n.calls[u])
  {
    forall u | u in n.calls ensures CallOk(n.db, n.calls[u]) {
      if u == t {
        NextCallOk(s, s.calls[t], ok, n.db);
      } else {
        assert CallOk(s.db, s.calls[u]);
        CallOkGrows(s.db, n.db, s.calls[u]);
      }
    }
  }

  lemma CreateKeepsInv(s: Sys, r: RfqId, rfq: Rfq)
    requires Inv(s) && r !in s.db.rfqs && FreshRfq(rfq, s.clock)
    ensures Inv(s.(db := SetRfq(s.db, r, rfq)))
  {
    var n := s.(db := SetRfq(s.db, r, rfq));
    assert forall c, b :: Reveals(n.db, c, b) ==> Reveals(s.db, c, b);
    forall q | q in n.db.rfqs ensures RfqOk(n, q) {
      if q != r { assert RfqOk(s, q); }
    }
    forall b | b in n.db.bids ensures BidOk(n.db, b) {
      assert BidOk(s.db, b);
    }
    forall u | u in n.calls ensures CallOk(n.db, n.calls[u]) {
      assert CallOk(s.db, s.calls[u]);
    }
  }

  lemma BeginOk(s: Sys, a: Action)
    requires !a.Tick? && !a.CreateRfq? && !a.Advance? && a.r in s.db.rfqs
    ensures CallOk(s.db, Begin(s, a))
  {
  }

  /** The RFQs, the bids and the history are untouched by the clock and by new calls. */
  lemma SameTablesKeepInv(s: Sys, n: Sys)
    requires Inv(s) && n.db == s.db && n.ballots == s.ballots
    requires forall u :: u in n.calls ==> CallOk(n.db, n.calls[u])
    ensures Inv(n)
  {
    forall r | r in n.db.rfqs ensures RfqOk(n, r) {
      assert RfqOk(s, r);
    }
  }

  lemma StepKeepsInv(s: Sys, a: Action)
    requires Inv(s)
    ensures Inv(Step(s, a))
  {
    if a.Advance? {
      if a.t in s.calls { AdvanceKeepsInv(s, a.t, a.ok); }
    } else if a.CreateRfq? {
      if a.r !in s.db.rfqs && FreshRfq(a.rfq, s.clock) { CreateKeepsInv(s, a.r, a.rfq); }
    } else if a.Tick? {
      SameTablesKeepInv(s, Step(s, a));
    } else if a.t !in s.calls && a.r in s.db.rfqs {
      BeginOk(s, a);
      SameTablesKeepInv(s, Step(s, a));
    }
  }

  lemma StepTables(s: Sys, a: Action)
    requires !a.CreateRfq?
    ensures Step(s, a).db == Apply(s.db, TxOfStep(s, a))
  {
  }

  lemma StepFits(s: Sys, a: Action)
    requires Inv(s)
    ensures Fits(s.db, TxOfStep(s, a))
  {
    if a.Advance? && a.t in s.calls { assert CallOk(s.db, s.calls[a.t]); }
  }

  lemma {:induction false} InvAlways(schedule: seq<Action>)
    ensures Inv(Exec(Start, schedule))
  {
    if schedule != [] {
      InvAlways(schedule[..|schedule| - 1]);
      StepKeepsInv(Exec(Start, schedule[..|schedule| - 1]), schedule[|schedule| - 1]);
    }
  }

  // ---- the winner

  /** On a sealed RFQ every accepted bid is the named best bid, and that is the unique first
      candidate of the ballot counted at finalization. */
  lemma OnlyTheBestBidIsAccepted(schedule: seq<Action>, b: BidId)
    requires b in Exec(Start, schedule).db.bids && Exec(Start, schedule).db.bids[b].status == Accepted
    requires var db := Exec(Start, schedule).db; db.bids[b].rfq in db.rfqs && db.rfqs[db.bids[b].rfq].sealed
    ensures var s := Exec(Start, schedule);
      var r := s.db.bids[b].rfq;
      && s.db.rfqs[r].sealing == Finalized && s.db.rfqs[r].best == Some(b)
      && r in s.ballots && exists x :: BestOf(x, s.ballots[r]) && x.bid == b
  {
    InvAlways(schedule);
    var s := Exec(Start, schedule);
    assert BidOk(s.db, b) && RfqOk(s, s.db.bids[b].rfq);
  }

  /** Hence at most one bid of a sealed RFQ is ever accepted. */
  lemma AtMostOneBidIsAccepted(schedule: seq<Action>, b: BidId, d: BidId)
    requires var db := Exec(Start, schedule).db;
      && b in db.bids && d in db.bids && db.bids[b].rfq == db.bids[d].rfq
      && db.bids[b].status == Accepted && db.bids[d].status == Accepted
      && db.bids[b].rfq in db.rfqs && db.rfqs[db.bids[b].rfq].sealed
    ensures b == d
  {
    OnlyTheBestBidIsAccepted(schedule, b);
    OnlyTheBestBidIsAccepted(schedule, d);
  }

  /** The call is about to finalize the RFQ, and this is the clock reading that it took to do so. */
  predicate Finalizes(pc: Pc, r: RfqId, now: int) {
    pc == FinalizeReady(now, r) || (pc.AcceptFinalizing? && pc.r == r && pc.at == now)
  }

  /** A ballot is only ever counted by a finalization of its RFQ: it is the set of eligible bids of the very
      state that the finalization reads, by the clock reading of the finalization, which is after the reveal
      deadline. */
  lemma BallotIsTakenAfterReveals(s: Sys, a: Action, r: RfqId)
    requires r !in s.ballots && r in Step(s, a).ballots
    ensures r in s.db.rfqs && a.Advance? && a.t in s.calls
    ensures exists now ::
      && Finalizes(s.calls[a.t], r, now) && now > s.db.rfqs[r].revealDeadline
      && Step(s, a).ballots[r] == Ballot(s.db, r, now)
  {
    var tx := TxOf(s.calls[a.t], s.clock);
    assert Finalizes(s.calls[a.t], r, tx.now) && tx.now > s.db.rfqs[r].revealDeadline;
  }

  lemma BallotStays(s: Sys, a: Action, r: RfqId)
    requires Inv(s) && r in s.ballots
    ensures r in Step(s, a).ballots && Step(s, a).ballots[r] == s.ballots[r]
  {
    assert r in s.db.rfqs && RfqOk(s, r);
  }

  lemma {:induction false} RunGrows(s: Sys, more: seq<Action>)
    requires Inv(s)
    ensures Inv(Exec(s, more)) && Grows(s.db, Exec(s, more).db)
  {
    if more == [] {
      assert Grows(s.db, s.db);
    } else {
      var before := Exec(s, more[..|more| - 1]);
      RunGrows(s, more[..|more| - 1]);
      StepGrows(before, more[|more| - 1]);
      StepKeepsInv(before, more[|more| - 1]);
      GrowsTransitive(s.db, before.db, Exec(s, more).db);
    }
  }

  lemma {:induction false} BallotsStay(s: Sys, more: seq<Action>, r: RfqId)
    requires Inv(s) && r in s.ballots
    ensures r in Exec(s, more).ballots && Exec(s, more).ballots[r] == s.ballots[r]
  {
    if more != [] {
      BallotsStay(s, more[..|more| - 1], r);
      RunGrows(s, more[..|more| - 1]);
      BallotStays(Exec(s, more[..|more| - 1]), more[|more| - 1], r);
    }
  }

  lemma {:induction false} ExecSplits(s: Sys, schedule: seq<Action>, more: seq<Action>)
    ensures Exec(s, schedule + more) == Exec(Exec(s, schedule), more)
  {
    if more == [] {
      assert schedule + more == schedule;
    } else {
      assert (schedule + more)[..|schedule + more| - 1] == schedule + more[..|more| - 1];
      ExecSplits(s, schedule, more[..|more| - 1]);
    }
  }

  /** The result of a sealed RFQ is written at most once: later steps change neither it nor its ballot. */
  lemma ResultIsWrittenOnce(schedule: seq<Action>, more: seq<Action>, r: RfqId)
    requires r in Exec(Start, schedule).db.rfqs && IsFinal(Exec(Start, schedule).db.rfqs[r])
    ensures var s, t := Exec(Start, schedule), Exec(Start, schedule + more);
      && r in t.db.rfqs && r in s.ballots && r in t.ballots && t.ballots[r] == s.ballots[r]
      && t.db.rfqs[r].sealing == s.db.rfqs[r].sealing && t.db.rfqs[r].best == s.db.rfqs[r].best
      && t.db.rfqs[r].finalizedAt == s.db.rfqs[r].finalizedAt
  {
    InvAlways(schedule);
    var s := Exec(Start, schedule);
    assert RfqOk(s, r);
    ExecSplits(Start, schedule, more);
    RunGrows(s, more);
    BallotsStay(s, more, r);
  }

  // ---- discipline

  /** Finalization gives each bidder with a commit still "committed" exactly one strike and a
      cooldown of at least the duration for the new count; nobody else's record changes. */
  lemma FinalizationStrikes(db: Db, now: int, r: RfqId, bidder: Bidder)
    requires r in db.rfqs && MayFinalize(db.rfqs[r], now)
    ensures var before, after := db.discipline, FinalizeTx(db, now, r).discipline;
      if exists c ::
        c in db.commits && db.commits[c].rfq == r && db.commits[c].bidder == bidder && db.commits[c].status == Committed
      then
        && bidder in after && after[bidder].strikes == StrikesOf(before, bidder) + 1
        && after[bidder].cooldownUntil ==
             var until := now + Cooldown(after[bidder].strikes);
             if bidder in before && before[bidder].cooldownUntil > until then before[bidder].cooldownUntil else until
      else (bidder in after <==> bidder in before) && (bidder in before ==> after[bidder] == before[bidder])
  {
    assert bidder in NonRevealers(db, r) <==> exists c ::
      && c in db.commits && db.commits[c].rfq == r && db.commits[c].bidder == bidder
      && db.commits[c].status == Committed;
  }

  /** Strikes and cooldowns never decrease over a run. */
  lemma DisciplineNeverRelaxes(schedule: seq<Action>, more: seq<Action>, bidder: Bidder)
    requires bidder in Exec(Start, schedule).db.discipline
    ensures bidder in Exec(Start, schedule + more).db.discipline
    ensures var before := Exec(Start, schedule).db.discipline[bidder];
      var after := Exec(Start, schedule + more).db.discipline[bidder];
      after.strikes >= before.strikes && after.cooldownUntil >= before.cooldownUntil
  {
    InvAlways(schedule);
    ExecSplits(Start, schedule, more);
    RunGrows(Exec(Start, schedule), more);
  }

  // ---- one bid per bidder

  predicate SameBidder(a: Commit, r: RfqId, bidder: Bidder) {
    a.rfq == r && a.bidder == bidder
  }

  ghost predicate OneLiveCommit(db: Db) {
    forall c, d | c in db.commits && d in db.commits && Live(db.commits[c]) && Live(db.commits[d])
      :: SameBidder(db.commits[c], db.commits[d].rfq, db.commits[d].bidder) ==> c == d
  }

  ghost predicate OneBid(db: Db) {
    forall b, d | b in db.bids && d in db.bids && db.bids[b].rfq == db.bids[d].rfq
      :: db.bids[b].offer.bidder == db.bids[d].offer.bidder ==> b == d
  }

  /** Whoever has bid has no unrevealed commit left. */
  ghost predicate BidsCloseCommits(db: Db) {
    forall b, c :: b in db.bids && c in db.commits && db.commits[c].status == Committed ==>
      !SameBidder(db.commits[c], db.bids[b].rfq, db.bids[b].offer.bidder)
  }

  ghost predicate TimeOk(s: Sys, pc: Pc) {
    && (pc.CommitReady? ==> pc.now <= s.clock)
    && (forall r, now :: Finalizes(pc, r, now) ==> now <= s.clock)
    && (pc.RevealReady? ==> pc.r in s.db.rfqs && s.clock >= s.db.rfqs[pc.r].commitDeadline)
  }

  /** Times already read are in the past; reveals come only after the commit deadline, ballots only after
      the reveal deadline. */
  ghost predicate TimesOk(s: Sys) {
    && (forall t :: t in s.calls ==> TimeOk(s, s.calls[t]))
    && (forall r :: r in s.ballots ==> r in s.db.rfqs && s.clock > s.db.rfqs[r].revealDeadline)
    && (forall b :: b in s.db.bids ==>
          s.db.bids[b].rfq in s.db.rfqs && s.clock >= s.db.rfqs[s.db.bids[b].rfq].commitDeadline)
  }

  lemma AfterTimeOk(s: Sys, pc: Pc, ok: bool, db: Db)
    ensures TimeOk(s.(db := db), After(s, pc, ok, db))
  {
  }

  lemma BeginTimeOk(s: Sys, a: Action)
    requires !a.Tick? && !a.CreateRfq? && !a.Advance? && a.r in s.db.rfqs
    ensures TimeOk(s, Begin(s, a))
  {
  }

  /** Only a reveal adds a bid. */
  lemma TxAddsBid(db: Db, tx: Tx, b: BidId)
    requires b in Apply(db, tx).bids && b !in db.bids
    ensures tx.LinkReveal? && Apply(db, tx).bids[b] == Bid(tx.r, tx.offer, Pending)
  {
  }

  lemma TxKeepsBidTimes(s: Sys, t: Tid, tx: Tx)
    requires IdsOk(s.db) && LinksOk(s.db) && TimesOk(s) && t in s.calls
    requires tx == TxOf(s.calls[t], s.clock) || tx == Nothing
    ensures forall b :: b in Apply(s.db, tx).bids ==>
      && Apply(s.db, tx).bids[b].rfq in s.db.rfqs
      && s.clock >= s.db.rfqs[Apply(s.db, tx).bids[b].rfq].commitDeadline
  {
    TxGrows(s.db, tx);
    forall b | b in Apply(s.db, tx).bids
      ensures Apply(s.db, tx).bids[b].rfq in s.db.rfqs
           && s.clock >= s.db.rfqs[Apply(s.db, tx).bids[b].rfq].commitDeadline
    {
      if b !in s.db.bids {
        TxAddsBid(s.db, tx, b);
        assert TimeOk(s, s.calls[t]);
      }
    }
  }

  lemma AdvanceKeepsTimes(s: Sys, t: Tid, ok: bool)
    requires IdsOk(s.db) && LinksOk(s.db) && TimesOk(s) && t in s.calls
    ensures TimesOk(AdvanceCall(s, t, ok))
  {
    var tx := if ok then TxOf(s.calls[t], s.clock) else Nothing;
    var n := AdvanceCall(s, t, ok);
    TxGrows(s.db, tx);
    AfterTimeOk(s, s.calls[t], ok, n.db);
    forall u | u in n.calls ensures TimeOk(n, n.calls[u]) {
      if u != t { assert TimeOk(s, s.calls[u]); }
    }
    TxKeepsBidTimes(s, t, tx);
    AdvanceKeepsBallotTimes(s, t, ok);
  }

  lemma AdvanceKeepsBallotTimes(s: Sys, t: Tid, ok: bool)
    requires IdsOk(s.db) && LinksOk(s.db) && TimesOk(s) && t in s.calls
    ensures var n := AdvanceCall(s, t, ok);
      forall r :: r in n.ballots ==> r in n.db.rfqs && n.clock > n.db.rfqs[r].revealDeadline
  {
    var n := AdvanceCall(s, t, ok);
    StepGrows(s, Advance(t, ok));
    forall r | r in n.ballots ensures r in n.db.rfqs && n.clock > n.db.rfqs[r].revealDeadline {
      if r !in s.ballots {
        BallotIsTakenAfterReveals(s, Advance(t, ok), r);
        assert TimeOk(s, s.calls[t]);
      }
      assert RfqGrows(s.db.rfqs[r], n.db.rfqs[r]);
    }
  }

  /** Times stay right as the clock runs on and RFQs are added. */
  lemma LaterKeepsTimes(s: Sys, n: Sys)
    requires TimesOk(s) && n.clock >= s.clock && n.calls == s.calls && n.ballots == s.ballots && n.db.bids == s.db.bids
    requires forall r :: r in s.db.rfqs ==> r in n.db.rfqs && n.db.rfqs[r] == s.db.rfqs[r]
    ensures TimesOk(n)
  {
    forall u | u in n.calls ensures TimeOk(n, n.calls[u]) { assert TimeOk(s, s.calls[u]); }
  }

  lemma BegunKeepsTimes(s: Sys, t: Tid, pc: Pc)
    requires TimesOk(s) && TimeOk(s, pc)
    ensures TimesOk(Goto(s, t, pc))
  {
    var n := Goto(s, t, pc);
    forall u | u in n.calls ensures TimeOk(n, n.calls[u]) {
      assert u in s.calls ==> TimeOk(s, s.calls[u]);
      assert TimeOk(n, pc) <==> TimeOk(s, pc);
    }
  }

  lemma TickKeepsTimes(s: Sys, a: Action)
    requires TimesOk(s) && a.Tick?
    ensures TimesOk(Step(s, a))
  {
    LaterKeepsTimes(s, Step(s, a));
  }

  lemma CreateKeepsTimes(s: Sys, a: Action)
    requires TimesOk(s) && a.CreateRfq?
    ensures TimesOk(Step(s, a))
  {
    if Step(s, a) != s { LaterKeepsTimes(s, Step(s, a)); }
  }

  lemma CallKeepsTimes(s: Sys, a: Action)
    requires Inv(s) && TimesOk(s) && a.Advance?
    ensures TimesOk(Step(s, a))
  {
    if a.t in s.calls { AdvanceKeepsTimes(s, a.t, a.ok); }
  }

  lemma StartKeepsTimes(s: Sys, a: Action)
    requires TimesOk(s) && !a.Tick? && !a.CreateRfq? && !a.Advance?
    ensures TimesOk(Step(s, a))
  {
    if a.t !in s.calls && a.r in s.db.rfqs {
      BeginTimeOk(s, a);
      BegunKeepsTimes(s, a.t, Begin(s, a));
    }
  }

  lemma StepKeepsTimes(s: Sys, a: Action)
    requires Inv(s) && TimesOk(s)
    ensures TimesOk(Step(s, a))
  {
    if a.Advance? {
      CallKeepsTimes(s, a);
    } else if a.Tick? {
      TickKeepsTimes(s, a);
    } else if a.CreateRfq? {
      CreateKeepsTimes(s, a);
    } else {
      StartKeepsTimes(s, a);
    }
  }

  lemma {:induction false} TimesAlways(schedule: seq<Action>)
    ensures TimesOk(Exec(Start, schedule))
  {
    if schedule != [] {
      TimesAlways(schedule[..|schedule| - 1]);
      InvAlways(schedule[..|schedule| - 1]);
      StepKeepsTimes(Exec(Start, schedule[..|schedule| - 1]), schedule[|schedule| - 1]);
    }
  }

  lemma NoCommitInCooldown(s: Sys, a: Action, c: CommitId)
    requires TimesOk(s) && c !in s.db.commits && c in Step(s, a).db.commits
    requires var r := Step(s, a).db.commits[c].rfq; r in s.db.rfqs && s.db.rfqs[r].sealed
    ensures !InCooldown(s.db, Step(s, a).db.commits[c].bidder, s.clock)
  {
    assert a.Advance? && a.ok && a.t in s.calls && TimeOk(s, s.calls[a.t]);
    TxAddsCommit(s.db, TxOf(s.calls[a.t], s.clock), c);
  }

  /** No sealed commit is created while its bidder's cooldown runs, although the cooldown is
      compared with a clock reading from before the transaction. */
  lemma NoCommitDuringCooldown(schedule: seq<Action>, a: Action, c: CommitId)
    requires var s, n := Exec(Start, schedule), Step(Exec(Start, schedule), a);
      && c !in s.db.commits && c in n.db.commits
      && n.db.commits[c].rfq in s.db.rfqs && s.db.rfqs[n.db.commits[c].rfq].sealed
    ensures var s := Exec(Start, schedule); !InCooldown(s.db, Step(s, a).db.commits[c].bidder, s.clock)
  {
    TimesAlways(schedule);
    NoCommitInCooldown(Exec(Start, schedule), a, c);
  }

  /** Only CommitBid adds a commit. */
  lemma TxAddsCommit(db: Db, tx: Tx, c: CommitId)
    requires c in Apply(db, tx).commits && c !in db.commits
    ensures tx.InsertCommit? && tx.r in db.rfqs && (db.rfqs[tx.r].sealed ==> !InCooldown(db, tx.bidder, tx.now))
    ensures SameBidder(Apply(db, tx).commits[c], tx.r, tx.bidder)
  {
  }

  ghost predicate OneEach(db: Db) {
    OneLiveCommit(db) && OneBid(db) && BidsCloseCommits(db)
  }

  lemma RevealKeepsOneEach(db: Db, r: RfqId, c: CommitId, offer: Offer)
    requires OneEach(db) && Fits(db, LinkReveal(r, c, offer))
    ensures OneEach(RevealTx(db, r, c, offer))
  {
  }

  lemma StatusOnlyKeepsOneEach(a: Db, b: Db)
    requires OneEach(a) && StatusOnly(a, b)
    ensures OneEach(b)
  {
    forall i | i in b.bids ensures b.bids[i].rfq == a.bids[i].rfq && b.bids[i].offer == a.bids[i].offer {
      assert b.bids[i] == a.bids[i].(status := b.bids[i].status);
    }
  }

  lemma TxKeepsOneEach(db: Db, tx: Tx)
    requires OneEach(db) && Fits(db, tx) && !tx.InsertCommit?
    ensures OneEach(Apply(db, tx))
  {
    if tx.LinkReveal? {
      RevealKeepsOneEach(db, tx.r, tx.c, tx.offer);
    } else if tx.Award? {
      AwardIsStatusOnly(db, tx.r, tx.b);
      StatusOnlyKeepsOneEach(db, AwardBid(db, tx.r, tx.b));
      SettleIsStatusOnly(AwardBid(db, tx.r, tx.b), tx.r, tx.b);
      StatusOnlyKeepsOneEach(AwardBid(db, tx.r, tx.b), SettleCommits(AwardBid(db, tx.r, tx.b), tx.r, tx.b));
    } else {
      OtherTxIsStatusOnly(db, tx);
      StatusOnlyKeepsOneEach(db, Apply(db, tx));
    }
  }

  /** In every run, distinct revealed commits point to distinct bids of their own RFQ. */
  lemma RevealedCommitsHaveOwnBids(schedule: seq<Action>, c: CommitId, d: CommitId)
    requires var db := Exec(Start, schedule).db;
      && c in db.commits && d in db.commits && c != d
      && db.commits[c].status == Revealed && db.commits[d].status == Revealed
    ensures var db := Exec(Start, schedule).db;
      && db.commits[c].bid.Some? && db.commits[d].bid.Some? && db.commits[c].bid != db.commits[d].bid
      && db.commits[c].bid.value in db.bids && db.bids[db.commits[c].bid.value].rfq == db.commits[c].rfq
  {
    InvAlways(schedule);
    var db := Exec(Start, schedule).db;
    assert Reveals(db, c, db.commits[c].bid.value) && Reveals(db, d, db.commits[d].bid.value);
  }
}
