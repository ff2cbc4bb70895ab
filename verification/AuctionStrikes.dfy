/** Strikes over every interleaving of the auction: what a bidder's strike count stands for. */
module AuctionStrikes {
  import opened Auction
  import opened AuctionRuns

  /** The step finalizes an RFQ and finds the bidder with a commit still "committed". */
  ghost predicate Strikes(s: Sys, a: Action, bidder: Bidder) {
    Counts(s.db, TxOfStep(s, a)) && bidder in NonRevealers(s.db, TxOfStep(s, a).r)
  }

  /** The RFQs whose finalization found the bidder with a commit still "committed". */
  ghost function Struck(schedule: seq<Action>, bidder: Bidder): set<RfqId> {
    if schedule == [] then {}
    else
      var s, a := Exec(Start, schedule[..|schedule| - 1]), schedule[|schedule| - 1];
      Struck(schedule[..|schedule| - 1], bidder) + if Strikes(s, a, bidder) then {TxOfStep(s, a).r} else {}
  }

  lemma StepRuns(s: Sys, a: Action)
    ensures a.Advance? ==> Step(s, a).db == Apply(s.db, TxOfStep(s, a))
    ensures !a.Advance? ==> Step(s, a).db.discipline == s.db.discipline
  {
    if a.Advance? { StepTables(s, a); }
  }

  lemma TxStrikes(db: Db, tx: Tx, bidder: Bidder)
    ensures StrikesOf(Apply(db, tx).discipline, bidder) == StrikesOf(db.discipline, bidder)
      + if Counts(db, tx) && bidder in NonRevealers(db, tx.r) then 1 else 0
  {
    match tx
    case Count(now, r) => if Counts(db, tx) { CountStrikes(db, now, r, bidder); }
    case _ => assert Apply(db, tx).discipline == db.discipline;
  }

  lemma CountStrikes(db: Db, now: int, r: RfqId, bidder: Bidder)
    requires r in db.rfqs && MayFinalize(db.rfqs[r], now)
    ensures StrikesOf(FinalizeTx(db, now, r).discipline, bidder) == StrikesOf(db.discipline, bidder)
      + if bidder in NonRevealers(db, r) then 1 else 0
  {
    FinalizationStrikes(db, now, r, bidder);
  }

  /** What has struck a bidder is final, so it can never strike again. */
  lemma {:induction false} StruckAreFinal(schedule: seq<Action>, bidder: Bidder)
    ensures forall r :: r in Struck(schedule, bidder) ==>
      r in Exec(Start, schedule).db.rfqs && IsFinal(Exec(Start, schedule).db.rfqs[r])
  {
    if schedule != [] {
      var init, a := schedule[..|schedule| - 1], schedule[|schedule| - 1];
      var s := Exec(Start, init);
      StruckAreFinal(init, bidder);
      InvAlways(init);
      StepGrows(s, a);
      if Strikes(s, a, bidder) { StepRuns(s, a); }
    }
  }

  /** In every interleaving a bidder's strike count is the number of RFQs whose finalization found the
      bidder with a commit still "committed": one strike for each, however many such commits there are and
      however often finalization is tried. */
  lemma {:induction false} StrikesCountRfqs(schedule: seq<Action>, bidder: Bidder)
    ensures StrikesOf(Exec(Start, schedule).db.discipline, bidder) == |Struck(schedule, bidder)|
  {
    if schedule != [] {
      var init, a := schedule[..|schedule| - 1], schedule[|schedule| - 1];
      var s := Exec(Start, init);
      StrikesCountRfqs(init, bidder);
      StruckAreFinal(init, bidder);
      StepRuns(s, a);
      TxStrikes(s.db, TxOfStep(s, a), bidder);
      if Strikes(s, a, bidder) { assert TxOfStep(s, a).r !in Struck(init, bidder); }
    }
  }

  /** Once an RFQ is final, trying to finalize it again, at any later state of any run and at any time,
      changes nothing. */
  lemma RefinalizingChangesNothing(schedule: seq<Action>, more: seq<Action>, r: RfqId, later: int)
    requires r in Exec(Start, schedule).db.rfqs && IsFinal(Exec(Start, schedule).db.rfqs[r])
    ensures FinalizeTx(Exec(Start, schedule + more).db, later, r) == Exec(Start, schedule + more).db
  {
    ResultIsWrittenOnce(schedule, more, r);
  }
}
