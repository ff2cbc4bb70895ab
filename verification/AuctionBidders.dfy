/** How many commits and bids a bidder can have, and exactly when there are too many. */
module AuctionBidders {
  import opened Auction
  import opened AuctionRuns

  /** The bidder has revealed a bid in the RFQ. */
  ghost predicate HasBid(db: Db, r: RfqId, bidder: Bidder) {
    exists b :: b in db.bids && db.bids[b].rfq == r && db.bids[b].offer.bidder == bidder
  }

  /** A revealed commit and the bid it reveals are the same bidder's. */
  ghost predicate BiddersMatch(db: Db) {
    forall c, b {:trigger Reveals(db, c, b)} :: Reveals(db, c, b) ==>
      b in db.bids && db.bids[b].offer.bidder == db.commits[c].bidder
  }

  ghost predicate Sound(db: Db) {
    IdsOk(db) && LinksOk(db) && BiddersMatch(db)
  }

  lemma StatusOnlyKeepsMatch(a: Db, b: Db)
    requires BiddersMatch(a) && StatusOnly(a, b)
    ensures BiddersMatch(b)
  {
    forall c, i | Reveals(b, c, i) ensures i in b.bids && b.bids[i].offer.bidder == b.commits[c].bidder {
      assert b.commits[c] == a.commits[c].(status := b.commits[c].status);
      assert Reveals(a, c, i);
      assert b.bids[i] == a.bids[i].(status := b.bids[i].status);
    }
  }

  lemma InsertKeepsMatch(db: Db, now: int, at: int, r: RfqId, bidder: Bidder, commitment: string, nonce: string)
    requires Sound(db)
    ensures BiddersMatch(CommitTx(db, now, at, r, bidder, commitment, nonce))
  {
    var d := CommitTx(db, now, at, r, bidder, commitment, nonce);
    forall c, b | Reveals(d, c, b) ensures Reveals(db, c, b) && d.commits[c].bidder == db.commits[c].bidder {
    }
  }

  lemma RevealKeepsMatch(db: Db, r: RfqId, c: CommitId, offer: Offer)
    requires Sound(db) && Fits(db, LinkReveal(r, c, offer))
    ensures BiddersMatch(RevealTx(db, r, c, offer))
  {
    var d := RevealTx(db, r, c, offer);
    forall e, b | Reveals(d, e, b) ensures b in d.bids && d.bids[b].offer.bidder == d.commits[e].bidder {
      if e != c || d == db {
        assert Reveals(db, e, b);
      }
    }
  }

  lemma TxKeepsMatch(db: Db, tx: Tx)
    requires Sound(db) && Fits(db, tx)
    ensures BiddersMatch(Apply(db, tx))
  {
    if tx.InsertCommit? {
      InsertKeepsMatch(db, tx.now, tx.at, tx.r, tx.bidder, tx.commitment, tx.nonce);
    } else if tx.LinkReveal? {
      RevealKeepsMatch(db, tx.r, tx.c, tx.offer);
    } else if tx.Award? {
      AwardIsStatusOnly(db, tx.r, tx.b);
      StatusOnlyKeepsMatch(db, AwardBid(db, tx.r, tx.b));
      SettleIsStatusOnly(AwardBid(db, tx.r, tx.b), tx.r, tx.b);
      StatusOnlyKeepsMatch(AwardBid(db, tx.r, tx.b), SettleCommits(AwardBid(db, tx.r, tx.b), tx.r, tx.b));
    } else {
      OtherTxIsStatusOnly(db, tx);
      StatusOnlyKeepsMatch(db, Apply(db, tx));
    }
  }

  lemma StepRunsTx(s: Sys, a: Action)
    requires Inv(s)
    ensures Fits(s.db, TxOfStep(s, a))
    ensures var t := Step(s, a);
      t.db.bids == Apply(s.db, TxOfStep(s, a)).bids && t.db.commits == Apply(s.db, TxOfStep(s, a)).commits
  {
    StepFits(s, a);
    if !a.CreateRfq? { StepTables(s, a); }
  }

  lemma {:induction false} SoundAlways(schedule: seq<Action>)
    ensures Inv(Exec(Start, schedule)) && Sound(Exec(Start, schedule).db)
  {
    InvAlways(schedule);
    if schedule != [] {
      var s, a := Exec(Start, schedule[..|schedule| - 1]), schedule[|schedule| - 1];
      SoundAlways(schedule[..|schedule| - 1]);
      StepRunsTx(s, a);
      TxKeepsMatch(s.db, TxOfStep(s, a));
      var n := Step(s, a).db;
      forall c, b | Reveals(n, c, b) ensures b in n.bids && n.bids[b].offer.bidder == n.commits[c].bidder {
        assert Reveals(Apply(s.db, TxOfStep(s, a)), c, b);
      }
    }
  }

  // ---- one insert, one reveal

  /** The transaction inserts a commit for a bidder who has already revealed in the RFQ. */
  ghost predicate Reinserts(db: Db, tx: Tx) {
    tx.InsertCommit? && Apply(db, tx) != db && HasBid(db, tx.r, tx.bidder)
  }

  /** The transaction reveals a second bid of a bidder in the RFQ. */
  ghost predicate Rebids(db: Db, tx: Tx) {
    tx.LinkReveal? && Apply(db, tx) != db && HasBid(db, tx.r, tx.offer.bidder)
  }

  lemma RevealedMeansHasBid(db: Db, c: CommitId)
    requires Sound(db) && c in db.commits && db.commits[c].status == Revealed
    ensures HasBid(db, db.commits[c].rfq, db.commits[c].bidder)
  {
    assert Reveals(db, c, db.commits[c].bid.value);
  }

  /** A successful insert leaves one live commit and one bid each, no open commit beside a bid, exactly when
      its bidder has not revealed in the RFQ. */
  lemma InsertKeepsOneEachExactly(db: Db, tx: Tx)
    requires Sound(db) && OneEach(db) && tx.InsertCommit? && Apply(db, tx) != db
    ensures OneEach(Apply(db, tx)) <==> !HasBid(db, tx.r, tx.bidder)
  {
    var d, n := Apply(db, tx), db.nextCommit;
    assert n !in db.commits && d.commits[n].status == Committed && SameBidder(d.commits[n], tx.r, tx.bidder);
    if HasBid(db, tx.r, tx.bidder) {
      var b :| b in db.bids && db.bids[b].rfq == tx.r && db.bids[b].offer.bidder == tx.bidder;
      assert SameBidder(d.commits[n], d.bids[b].rfq, d.bids[b].offer.bidder);
    } else {
      forall c | c in d.commits && c != n && Live(d.commits[c])
        ensures c in db.commits && d.commits[c] == db.commits[c] && !SameBidder(d.commits[c], tx.r, tx.bidder)
      {
        if db.commits[c].status == Revealed { RevealedMeansHasBid(db, c); }
      }
    }
  }

  /** An insert that succeeds keeps one live commit per bidder exactly when that bidder has no revealed
      commit in the RFQ: superseding spares revealed commits. */
  lemma InsertKeepsOneLiveCommitExactly(db: Db, tx: Tx)
    requires OneLiveCommit(db) && IdsOk(db) && tx.InsertCommit? && Apply(db, tx) != db
    ensures OneLiveCommit(Apply(db, tx)) <==>
      !exists c :: c in db.commits && SameBidder(db.commits[c], tx.r, tx.bidder) && db.commits[c].status == Revealed
  {
    var d := Apply(db, tx);
    assert db.nextCommit !in db.commits;
    if c :| c in db.commits && SameBidder(db.commits[c], tx.r, tx.bidder) && db.commits[c].status == Revealed {
      assert d.commits[c] == db.commits[c] && Live(d.commits[db.nextCommit]);
    } else {
      forall c | c in d.commits && c != db.nextCommit && Live(d.commits[c])
        ensures c in db.commits && d.commits[c] == db.commits[c] && !SameBidder(d.commits[c], tx.r, tx.bidder)
      {
      }
    }
  }

  /** The transaction inserts a commit for a bidder with a commit in the RFQ that is still "revealed". */
  ghost predicate Crowds(db: Db, tx: Tx) {
    && tx.InsertCommit? && Apply(db, tx) != db
    && exists c :: c in db.commits && SameBidder(db.commits[c], tx.r, tx.bidder) && db.commits[c].status == Revealed
  }

  lemma RevealKeepsOneLive(db: Db, tx: Tx)
    requires OneLiveCommit(db) && tx.LinkReveal?
    ensures OneLiveCommit(Apply(db, tx))
  {
    var d := Apply(db, tx);
    forall c | c in d.commits && Live(d.commits[c])
      ensures c in db.commits && Live(db.commits[c])
           && SameBidder(d.commits[c], db.commits[c].rfq, db.commits[c].bidder)
    {
    }
  }

  lemma StatusOnlyKeepsOneLive(a: Db, b: Db)
    requires OneLiveCommit(a) && StatusOnly(a, b)
    ensures OneLiveCommit(b)
  {
  }

  /** Only an insert beside a commit that is still "revealed" gives a bidder a second live commit. */
  lemma TxKeepsOneLiveExactly(db: Db, tx: Tx)
    requires IdsOk(db) && Fits(db, tx) && OneLiveCommit(db)
    ensures OneLiveCommit(Apply(db, tx)) <==> !Crowds(db, tx)
  {
    if tx.InsertCommit? {
      if Apply(db, tx) != db { InsertKeepsOneLiveCommitExactly(db, tx); }
    } else if tx.LinkReveal? {
      RevealKeepsOneLive(db, tx);
    } else if tx.Award? {
      AwardIsStatusOnly(db, tx.r, tx.b);
      StatusOnlyKeepsOneLive(db, AwardBid(db, tx.r, tx.b));
      SettleIsStatusOnly(AwardBid(db, tx.r, tx.b), tx.r, tx.b);
      StatusOnlyKeepsOneLive(AwardBid(db, tx.r, tx.b), SettleCommits(AwardBid(db, tx.r, tx.b), tx.r, tx.b));
    } else {
      OtherTxIsStatusOnly(db, tx);
      StatusOnlyKeepsOneLive(db, Apply(db, tx));
    }
  }

  lemma OtherTxKeepsOneEach(db: Db, tx: Tx)
    requires OneEach(db) && Fits(db, tx) && (!tx.InsertCommit? || Apply(db, tx) == db)
    ensures OneEach(Apply(db, tx))
  {
    if !tx.InsertCommit? { TxKeepsOneEach(db, tx); }
  }

  /** A reveal keeps one bid per bidder exactly when it is the bidder's first in the RFQ; nothing else
      touches who has bid. */
  lemma TxKeepsOneBidExactly(db: Db, tx: Tx)
    requires Sound(db) && OneBid(db) && Fits(db, tx)
    ensures OneBid(Apply(db, tx)) <==> !Rebids(db, tx)
  {
    var d := Apply(db, tx);
    if tx.LinkReveal? && d != db {
      var n := db.nextBid;
      assert d.bids == db.bids[n := Bid(tx.r, tx.offer, Pending)] && n !in db.bids;
      if HasBid(db, tx.r, tx.offer.bidder) {
        var b :| b in db.bids && db.bids[b].rfq == tx.r && db.bids[b].offer.bidder == tx.offer.bidder;
        assert d.bids[b].offer.bidder == d.bids[n].offer.bidder && b != n;
      }
    } else {
      SameBidders(db, tx);
    }
  }

  lemma SameBidders(db: Db, tx: Tx)
    requires !tx.LinkReveal? || Apply(db, tx) == db
    ensures Apply(db, tx).bids.Keys == db.bids.Keys
    ensures forall b :: b in db.bids ==>
      Apply(db, tx).bids[b].rfq == db.bids[b].rfq && Apply(db, tx).bids[b].offer == db.bids[b].offer
  {
  }

  // ---- whole runs

  /** Every prefix of the run leaves each bidder with at most one live commit and at most one bid in an RFQ,
      and no open commit beside a bid. */
  ghost predicate AlwaysOneEach(schedule: seq<Action>) {
    OneEach(Exec(Start, schedule).db) && (schedule != [] ==> AlwaysOneEach(schedule[..|schedule| - 1]))
  }

  /** No insert in the run succeeds for a bidder who has already revealed in that RFQ. */
  ghost predicate NeverReinserts(schedule: seq<Action>) {
    schedule != [] ==>
      var s, a := Exec(Start, schedule[..|schedule| - 1]), schedule[|schedule| - 1];
      NeverReinserts(schedule[..|schedule| - 1]) && !Reinserts(s.db, TxOfStep(s, a))
  }

  /** No reveal in the run succeeds for a bidder who already has a bid in that RFQ. */
  ghost predicate NeverRebids(schedule: seq<Action>) {
    schedule != [] ==>
      var s, a := Exec(Start, schedule[..|schedule| - 1]), schedule[|schedule| - 1];
      NeverRebids(schedule[..|schedule| - 1]) && !Rebids(s.db, TxOfStep(s, a))
  }

  lemma StepKeepsOneEachExactly(s: Sys, a: Action)
    requires Inv(s) && Sound(s.db) && OneEach(s.db)
    ensures OneEach(Step(s, a).db) <==> !Reinserts(s.db, TxOfStep(s, a))
  {
    var tx := TxOfStep(s, a);
    StepRunsTx(s, a);
    if tx.InsertCommit? && Apply(s.db, tx) != s.db {
      InsertKeepsOneEachExactly(s.db, tx);
    } else {
      OtherTxKeepsOneEach(s.db, tx);
    }
    SameTables(Apply(s.db, tx), Step(s, a).db);
  }

  lemma SameTables(a: Db, b: Db)
    requires a.bids == b.bids && a.commits == b.commits
    ensures OneEach(a) <==> OneEach(b)
    ensures OneBid(a) <==> OneBid(b)
    ensures OneLiveCommit(a) <==> OneLiveCommit(b)
  {
  }

  /** Exactly the runs in which nobody who has revealed gets another commit in keep one live commit and one
      bid per bidder throughout. */
  lemma {:induction false} OneEachExactly(schedule: seq<Action>)
    ensures AlwaysOneEach(schedule) <==> NeverReinserts(schedule)
  {
    if schedule != [] {
      var init := schedule[..|schedule| - 1];
      OneEachExactly(init);
      SoundAlways(init);
      if AlwaysOneEach(init) {
        assert OneEach(Exec(Start, init).db);
        StepKeepsOneEachExactly(Exec(Start, init), schedule[|schedule| - 1]);
      }
    }
  }

  /** Every prefix of the run leaves each bidder with at most one live commit in an RFQ. */
  ghost predicate AlwaysOneLive(schedule: seq<Action>) {
    OneLiveCommit(Exec(Start, schedule).db) && (schedule != [] ==> AlwaysOneLive(schedule[..|schedule| - 1]))
  }

  /** No insert in the run succeeds beside a commit of the same bidder in that RFQ that is still "revealed". */
  ghost predicate NeverCrowds(schedule: seq<Action>) {
    schedule != [] ==>
      var s, a := Exec(Start, schedule[..|schedule| - 1]), schedule[|schedule| - 1];
      NeverCrowds(schedule[..|schedule| - 1]) && !Crowds(s.db, TxOfStep(s, a))
  }

  lemma StepKeepsOneLiveExactly(s: Sys, a: Action)
    requires Inv(s) && OneLiveCommit(s.db)
    ensures OneLiveCommit(Step(s, a).db) <==> !Crowds(s.db, TxOfStep(s, a))
  {
    StepRunsTx(s, a);
    TxKeepsOneLiveExactly(s.db, TxOfStep(s, a));
    SameTables(Apply(s.db, TxOfStep(s, a)), Step(s, a).db);
  }

  /** Exactly the runs in which no commit is inserted beside one that is still "revealed" keep one live commit per
      bidder throughout. */
  lemma {:induction false} OneLiveCommitExactly(schedule: seq<Action>)
    ensures AlwaysOneLive(schedule) <==> NeverCrowds(schedule)
  {
    if schedule != [] {
      var init := schedule[..|schedule| - 1];
      OneLiveCommitExactly(init);
      InvAlways(init);
      if AlwaysOneLive(init) {
        assert OneLiveCommit(Exec(Start, init).db);
        StepKeepsOneLiveExactly(Exec(Start, init), schedule[|schedule| - 1]);
      }
    }
  }

  lemma StepKeepsOneBidExactly(s: Sys, a: Action)
    requires Inv(s) && Sound(s.db)
    ensures OneBid(Step(s, a).db) <==> OneBid(s.db) && !Rebids(s.db, TxOfStep(s, a))
  {
    var tx := TxOfStep(s, a);
    StepRunsTx(s, a);
    SameTables(Apply(s.db, tx), Step(s, a).db);
    if OneBid(s.db) {
      TxKeepsOneBidExactly(s.db, tx);
    } else {
      TwoBidsStay(s.db, tx);
    }
  }

  lemma TwoBidsStay(db: Db, tx: Tx)
    requires Sound(db) && !OneBid(db)
    ensures !OneBid(Apply(db, tx))
  {
    var b, d :| b in db.bids && d in db.bids && db.bids[b].rfq == db.bids[d].rfq
                && db.bids[b].offer.bidder == db.bids[d].offer.bidder && b != d;
    TxGrows(db, tx);
    var n := Apply(db, tx);
    assert BidGrows(db.bids[b], n.bids[b]) && BidGrows(db.bids[d], n.bids[d]);
  }

  /** At the end of a run each bidder has at most one bid in an RFQ if and only if no reveal in it succeeded
      for a bidder who already had one. */
  lemma {:induction false} OneBidExactly(schedule: seq<Action>)
    ensures OneBid(Exec(Start, schedule).db) <==> NeverRebids(schedule)
  {
    if schedule != [] {
      OneBidExactly(schedule[..|schedule| - 1]);
      SoundAlways(schedule[..|schedule| - 1]);
      StepKeepsOneBidExactly(Exec(Start, schedule[..|schedule| - 1]), schedule[|schedule| - 1]);
    }
  }

  // ---- runs whose inserts land in time

  /** Every commit's insert lands before the commit deadline, as it does when calls are atomic. */
  ghost predicate TimelyStep(s: Sys, a: Action) {
    a.Advance? && a.t in s.calls && s.calls[a.t].CommitReady? && s.calls[a.t].r in s.db.rfqs ==>
      s.clock < s.db.rfqs[s.calls[a.t].r].commitDeadline
  }

  ghost predicate Timely(schedule: seq<Action>) {
    schedule != [] ==>
      && Timely(schedule[..|schedule| - 1])
      && TimelyStep(Exec(Start, schedule[..|schedule| - 1]), schedule[|schedule| - 1])
  }

  lemma TimelyStepDoesNotReinsert(s: Sys, a: Action)
    requires Inv(s) && TimesOk(s) && TimelyStep(s, a)
    ensures !Reinserts(s.db, TxOfStep(s, a))
  {
    var tx := TxOfStep(s, a);
    if tx.InsertCommit? && tx.r in s.db.rfqs {
      forall b | b in s.db.bids ensures s.db.bids[b].rfq != tx.r {}
    }
  }

  lemma {:induction false} TimelyNeverReinserts(schedule: seq<Action>)
    requires Timely(schedule)
    ensures NeverReinserts(schedule)
  {
    if schedule != [] {
      var init := schedule[..|schedule| - 1];
      TimelyNeverReinserts(init);
      InvAlways(init);
      TimesAlways(init);
      TimelyStepDoesNotReinsert(Exec(Start, init), schedule[|schedule| - 1]);
    }
  }

  /** When every commit's insert lands before the commit deadline, each bidder has at most one live commit and
      at most one bid ever in an RFQ. */
  lemma OneCommitAndOneBidEach(schedule: seq<Action>)
    requires Timely(schedule)
    ensures OneLiveCommit(Exec(Start, schedule).db) && OneBid(Exec(Start, schedule).db)
    ensures BidsCloseCommits(Exec(Start, schedule).db)
  {
    TimelyNeverReinserts(schedule);
    OneEachExactly(schedule);
  }
}
