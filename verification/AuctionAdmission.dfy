/** What gets into the auction: when a call that nobody interrupts goes through, and what every stored bid and
    commit therefore satisfies. */
module AuctionAdmission {
  import opened Common
  import opened Auction
  import opened AuctionRuns
  import opened AuctionResults

  // ---- calls that nobody interrupts

  /** An RFQ is stored if and only if it is open, has no result, and its deadlines lie ahead in order: the commit
      deadline after now, the reveal deadline not before it, the deadline not before that. */
  lemma RfqIsCreated(s: Sys, r: RfqId, rfq: Rfq)
    requires r !in s.db.rfqs
    ensures r in Step(s, CreateRfq(r, rfq)).db.rfqs <==>
      && rfq.status == Open && rfq.sealing != Finalized && rfq.sealing != NoValidReveals && rfq.best.None?
      && s.clock < rfq.commitDeadline && rfq.commitDeadline <= rfq.revealDeadline && rfq.revealDeadline <= rfq.deadline
  {
  }

  /** CommitBid alone stores a commit if and only if the RFQ is open, its commit deadline is ahead, the bidder is
      not the buyer, and the transaction goes through. */
  lemma CommitAlone(s: Sys, t: Tid, r: RfqId, bidder: Bidder, commitment: string, nonce: string)
    requires t !in s.calls && r in s.db.rfqs && s.db.nextCommit !in s.db.commits
    ensures var n := Step(Step(s, StartCommit(t, r, bidder, commitment, nonce)), Advance(t, true));
      s.db.nextCommit in n.db.commits <==>
        && s.db.rfqs[r].status == Open && s.clock < s.db.rfqs[r].commitDeadline && bidder != s.db.rfqs[r].buyer
        && CommitPasses(s.db, s.clock, r, bidder, commitment, nonce)
  {
    CommitStores(s.db, s.clock, s.clock, r, bidder, commitment, nonce);
  }

  /** What RevealBid tests: the phase, the commit, and the offer against the RFQ. */
  predicate RevealPasses(s: Sys, r: RfqId, c: CommitId, offer: Offer) {
    && r in s.db.rfqs && c in s.db.commits
    && var rfq, commit := s.db.rfqs[r], s.db.commits[c];
       && rfq.status == Open && rfq.commitDeadline <= s.clock <= rfq.revealDeadline
       && commit.rfq == r && commit.bidder == offer.bidder && commit.status == Committed && offer.bidder != rfq.buyer
       && offer.amount.Some? && 0 < offer.amount.value && rfq.budgetMin <= offer.amount.value <= rfq.budgetMax
       && 0 <= offer.duration && s.clock < offer.expiresAt <= rfq.deadline
  }

  /** RevealBid alone stores a bid if and only if the commitment and the credentials check out and its tests
      pass. */
  lemma RevealAlone(s: Sys, t: Tid, r: RfqId, c: CommitId, offer: Offer, valid: bool)
    requires t !in s.calls && r in s.db.rfqs && s.db.nextBid !in s.db.bids
    ensures var n := Step(Step(s, StartReveal(t, r, c, offer, valid)), Advance(t, true));
      s.db.nextBid in n.db.bids <==> valid && RevealPasses(s, r, c, offer)
  {
    RevealStores(s.db, r, c, offer);
  }

  /** FinalizeSealedBidding alone finalizes an RFQ if and only if it is sealed and open, not final, and its reveal
      deadline has passed. */
  lemma FinalizeAlone(s: Sys, t: Tid, r: RfqId)
    requires t !in s.calls && r in s.db.rfqs
    requires s.db.rfqs[r].sealing != Finalized && s.db.rfqs[r].sealing != NoValidReveals
    ensures var n := Step(Step(s, StartFinalize(t, r)), Advance(t, true)); var rfq := s.db.rfqs[r];
      r in n.db.rfqs &&
      (n.db.rfqs[r].sealing == Finalized || n.db.rfqs[r].sealing == NoValidReveals
       <==> rfq.sealed && rfq.status == Open && rfq.revealDeadline < s.clock)
  {
  }

  // ---- a cancellation

  /** A cancelled RFQ has no pending bid and no live commit. */
  ghost predicate ClearedUp(db: Db, r: RfqId) {
    && r in db.rfqs && db.rfqs[r].status == Cancelled
    && (forall b :: b in db.bids && db.bids[b].rfq == r ==> db.bids[b].status != Pending)
    && (forall c :: c in db.commits && db.commits[c].rfq == r ==>
          db.commits[c].status != Committed && db.commits[c].status != Revealed)
  }

  /** The statements of a cancellation in turn: the status, the bids, the commits. */
  lemma CancelStatements(db: Db, r: RfqId)
    requires r in db.rfqs
    ensures var cancelled := SetRfqStatus(db, r, Cancelled);
      ClearedUp(RejectUnaccepted(RejectPending(cancelled, r, None), r, None), r)
  {
  }

  lemma BeginsCancelling(s: Sys, t: Tid, r: RfqId)
    requires t !in s.calls && r in s.db.rfqs && s.db.rfqs[r].status == Open
    ensures Step(s, StartCancel(t, r)) == Goto(s, t, CancelReady(r))
  {
  }

  lemma Cancels(s: Sys, t: Tid, r: RfqId)
    requires t in s.calls && s.calls[t] == CancelReady(r)
    ensures Step(s, Advance(t, true)) == Goto(s.(db := SetRfqStatus(s.db, r, Cancelled)), t, CancelRejecting(r))
  {
  }

  lemma Rejects(s: Sys, t: Tid, r: RfqId)
    requires t in s.calls && s.calls[t] == CancelRejecting(r)
    ensures Step(s, Advance(t, true)) == Goto(s.(db := RejectPending(s.db, r, None)), t, CancelLosing(r))
  {
  }

  lemma Loses(s: Sys, t: Tid, r: RfqId)
    requires t in s.calls && s.calls[t] == CancelLosing(r)
    ensures Step(s, Advance(t, true)).db == RejectUnaccepted(s.db, r, None)
  {
  }

  /** A cancellation that nobody interrupts and no statement of which fails clears the RFQ up. */
  lemma CancelAlone(s: Sys, t: Tid, r: RfqId)
    requires t !in s.calls && r in s.db.rfqs && s.db.rfqs[r].status == Open
    ensures var one := Step(s, StartCancel(t, r));
      var two := Step(one, Advance(t, true));
      var three := Step(two, Advance(t, true));
      ClearedUp(Step(three, Advance(t, true)).db, r)
  {
    BeginsCancelling(s, t, r);
    var one := Goto(s, t, CancelReady(r));
    Cancels(one, t, r);
    var two := Goto(one.(db := SetRfqStatus(s.db, r, Cancelled)), t, CancelRejecting(r));
    Rejects(two, t, r);
    Loses(Goto(two.(db := RejectPending(two.db, r, None)), t, CancelLosing(r)), t, r);
    CancelStatements(s.db, r);
  }

  // ---- what every run keeps

  /** The offer is one that the RFQ admits. */
  predicate Admits(rfq: Rfq, offer: Offer) {
    && offer.bidder != rfq.buyer && 0 <= offer.duration && offer.expiresAt <= rfq.deadline
    && offer.amount.Some? && 0 < offer.amount.value && rfq.budgetMin <= offer.amount.value <= rfq.budgetMax
  }

  ghost predicate BidsAdmitted(db: Db) {
    forall b :: b in db.bids ==> db.bids[b].rfq in db.rfqs && Admits(db.rfqs[db.bids[b].rfq], db.bids[b].offer)
  }

  ghost predicate CommitsAdmitted(db: Db) {
    forall c :: c in db.commits ==>
      db.commits[c].rfq in db.rfqs && db.commits[c].bidder != db.rfqs[db.commits[c].rfq].buyer
  }

  ghost predicate CallAdmitted(db: Db, pc: Pc) {
    && (pc.RevealReady? ==> pc.r in db.rfqs && Admits(db.rfqs[pc.r], pc.offer))
    && (pc.CommitReady? ==> pc.r in db.rfqs && pc.bidder != db.rfqs[pc.r].buyer)
  }

  /** No transaction touches the terms of an RFQ. */
  predicate SameTermsOf(a: Rfq, b: Rfq) {
    b.buyer == a.buyer && b.budgetMin == a.budgetMin && b.budgetMax == a.budgetMax && b.deadline == a.deadline
  }

  ghost predicate TermsStay(a: Db, b: Db) {
    forall r :: r in a.rfqs ==> r in b.rfqs && SameTermsOf(a.rfqs[r], b.rfqs[r])
  }

  lemma TxKeepsTermsOf(db: Db, tx: Tx)
    ensures TermsStay(db, Apply(db, tx))
  {
  }

  lemma StepKeepsTermsOf(s: Sys, a: Action)
    ensures TermsStay(s.db, Step(s, a).db)
  {
    if !a.CreateRfq? {
      StepTables(s, a);
      TxKeepsTermsOf(s.db, TxOfStep(s, a));
    }
  }

  lemma TxAdmitsBids(db: Db, tx: Tx)
    requires BidsAdmitted(db) && (tx.LinkReveal? ==> tx.r in db.rfqs && Admits(db.rfqs[tx.r], tx.offer))
    ensures BidsAdmitted(Apply(db, tx))
  {
    TxKeepsTermsOf(db, tx);
    var d := Apply(db, tx);
    forall b | b in d.bids ensures d.bids[b].rfq in d.rfqs && Admits(d.rfqs[d.bids[b].rfq], d.bids[b].offer) {
      BidFrom(db, tx, b);
    }
  }

  lemma BidFrom(db: Db, tx: Tx, b: BidId)
    requires b in Apply(db, tx).bids
    ensures var bid := Apply(db, tx).bids[b];
      || (b in db.bids && bid.rfq == db.bids[b].rfq && bid.offer == db.bids[b].offer)
      || (tx.LinkReveal? && bid.rfq == tx.r && bid.offer == tx.offer)
  {
  }

  lemma TxAdmitsCommits(db: Db, tx: Tx)
    requires CommitsAdmitted(db) && (tx.InsertCommit? ==> tx.r in db.rfqs && tx.bidder != db.rfqs[tx.r].buyer)
    ensures CommitsAdmitted(Apply(db, tx))
  {
    TxKeepsTermsOf(db, tx);
    var d := Apply(db, tx);
    forall c | c in d.commits
      ensures d.commits[c].rfq in d.rfqs && d.commits[c].bidder != d.rfqs[d.commits[c].rfq].buyer
    {
      CommitFrom(db, tx, c);
    }
  }

  lemma CommitFrom(db: Db, tx: Tx, c: CommitId)
    requires c in Apply(db, tx).commits
    ensures var commit := Apply(db, tx).commits[c];
      || (c in db.commits && commit.rfq == db.commits[c].rfq && commit.bidder == db.commits[c].bidder)
      || (tx.InsertCommit? && commit.rfq == tx.r && commit.bidder == tx.bidder)
  {
  }

  ghost predicate Admitted(s: Sys) {
    BidsAdmitted(s.db) && CommitsAdmitted(s.db) && forall t :: t in s.calls ==> CallAdmitted(s.db, s.calls[t])
  }

  lemma CallsStayAdmitted(s: Sys, a: Action, t: Tid)
    requires Admitted(s) && t in Step(s, a).calls
    ensures CallAdmitted(Step(s, a).db, Step(s, a).calls[t])
  {
    StepKeepsTermsOf(s, a);
    if t in s.calls { assert CallAdmitted(s.db, s.calls[t]); }
  }

  lemma SameTermsAdmit(db: Db, d: Db)
    requires BidsAdmitted(db) && CommitsAdmitted(db) && TermsStay(db, d) && d.bids == db.bids && d.commits == db.commits
    ensures BidsAdmitted(d) && CommitsAdmitted(d)
  {
  }

  lemma StepKeepsAdmitted(s: Sys, a: Action)
    requires Admitted(s)
    ensures Admitted(Step(s, a))
  {
    forall t | t in Step(s, a).calls ensures CallAdmitted(Step(s, a).db, Step(s, a).calls[t]) {
      CallsStayAdmitted(s, a, t);
    }
    if a.CreateRfq? {
      StepKeepsTermsOf(s, a);
      SameTermsAdmit(s.db, Step(s, a).db);
    } else {
      var tx := TxOfStep(s, a);
      assert a.Advance? && a.t in s.calls ==> CallAdmitted(s.db, s.calls[a.t]);
      StepTables(s, a);
      TxAdmitsBids(s.db, tx);
      TxAdmitsCommits(s.db, tx);
    }
  }

  lemma {:induction false} AdmittedAlways(schedule: seq<Action>)
    ensures Admitted(Exec(Start, schedule))
  {
    if schedule != [] {
      AdmittedAlways(schedule[..|schedule| - 1]);
      StepKeepsAdmitted(Exec(Start, schedule[..|schedule| - 1]), schedule[|schedule| - 1]);
    }
  }

  /** In every run each stored bid is within the RFQ's budget, of a positive amount, expires by its deadline, and is
      not the buyer's own. */
  lemma BidsAreAdmitted(schedule: seq<Action>, b: BidId)
    requires b in Exec(Start, schedule).db.bids
    ensures var db := Exec(Start, schedule).db;
      && db.bids[b].rfq in db.rfqs
      && var rfq, offer := db.rfqs[db.bids[b].rfq], db.bids[b].offer;
         && offer.amount.Some? && 0 < offer.amount.value && rfq.budgetMin <= offer.amount.value <= rfq.budgetMax
         && offer.bidder != rfq.buyer && 0 <= offer.duration && offer.expiresAt <= rfq.deadline
  {
    AdmittedAlways(schedule);
  }

  // ---- the keys of a bidder's commits

  /** No two commits of a bidder in an RFQ share a nonce or a commitment. */
  ghost predicate KeysAreUnique(db: Db) {
    forall c, d :: c in db.commits && d in db.commits && c != d
                   && SameBidder(db.commits[c], db.commits[d].rfq, db.commits[d].bidder) ==>
      db.commits[c].nonce != db.commits[d].nonce && db.commits[c].commitment != db.commits[d].commitment
  }

  ghost predicate SameKeys(a: Db, b: Db) {
    && b.commits.Keys == a.commits.Keys
    && forall c :: c in a.commits ==>
         && b.commits[c].rfq == a.commits[c].rfq && b.commits[c].bidder == a.commits[c].bidder
         && b.commits[c].nonce == a.commits[c].nonce && b.commits[c].commitment == a.commits[c].commitment
  }

  lemma OtherTxKeepsKeys(db: Db, tx: Tx)
    requires !tx.InsertCommit?
    ensures SameKeys(db, Apply(db, tx))
  {
  }

  lemma InsertKeepsKeys(db: Db, tx: Tx)
    requires tx.InsertCommit? && KeysAreUnique(db) && db.nextCommit !in db.commits
    ensures KeysAreUnique(Apply(db, tx))
  {
    CommitStores(db, tx.now, tx.at, tx.r, tx.bidder, tx.commitment, tx.nonce);
    var d := Apply(db, tx);
    if d != db {
      forall c | c in db.commits
        ensures d.commits[c].rfq == db.commits[c].rfq && d.commits[c].bidder == db.commits[c].bidder
        ensures d.commits[c].nonce == db.commits[c].nonce && d.commits[c].commitment == db.commits[c].commitment
      {
      }
    }
  }

  lemma StepKeepsKeys(s: Sys, a: Action)
    requires Inv(s) && KeysAreUnique(s.db)
    ensures KeysAreUnique(Step(s, a).db)
  {
    if !a.CreateRfq? {
      var tx := TxOfStep(s, a);
      StepTables(s, a);
      if tx.InsertCommit? { InsertKeepsKeys(s.db, tx); } else { OtherTxKeepsKeys(s.db, tx); }
    }
  }

  /** In every run a bidder's commits in an RFQ have different nonces and different commitments. */
  lemma {:induction false} CommitKeysAreUnique(schedule: seq<Action>)
    ensures KeysAreUnique(Exec(Start, schedule).db)
  {
    if schedule != [] {
      CommitKeysAreUnique(schedule[..|schedule| - 1]);
      InvAlways(schedule[..|schedule| - 1]);
      StepKeepsKeys(Exec(Start, schedule[..|schedule| - 1]), schedule[|schedule| - 1]);
    }
  }
}
