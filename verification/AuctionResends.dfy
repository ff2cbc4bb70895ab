/** Exactly when another escrow can still be sent for a sealed RFQ whose best bid is named. */
module AuctionResends {
  import opened Common
  import opened Auction
  import opened AuctionRuns

  // ---- the condition

  /** A commit that is still "revealed" links to the bid. */
  ghost predicate Linked(db: Db, b: BidId) {
    exists c :: Reveals(db, c, b) && db.commits[c].status == Revealed
  }

  /** A call that read the clock at this time finds the deadline and the bid's expiry ahead of it, and the
      credentials that the RFQ asks for. */
  predicate Acceptable(db: Db, r: RfqId, b: BidId, now: int) {
    && r in db.rfqs && b in db.bids && now < db.rfqs[r].deadline && now < db.bids[b].offer.expiresAt
    && (db.rfqs[r].needsCredentials ==> db.bids[b].offer.verified)
  }

  predicate IsPending(db: Db, b: BidId) {
    b in db.bids && db.bids[b].status == Pending
  }

  /** The call accepts bid b and has not read the bid yet. */
  predicate OnItsWay(pc: Pc, r: RfqId, b: BidId) {
    && (pc.AcceptStarted? || pc.AcceptFinalizing? || (pc.AcceptChosen? && pc.best == Some(b)))
    && pc.r == r && pc.b == b
  }

  /** The call can go on to its chain call: it stands there, or its remaining tests pass. */
  ghost predicate CallMaySend(db: Db, pc: Pc, r: RfqId, b: BidId) {
    || pc == AcceptSending(r, b)
    || (pc == AcceptBidRead(r, b) && Linked(db, b))
    || (OnItsWay(pc, r, b) && Linked(db, b) && IsPending(db, b) && Acceptable(db, r, b, pc.now))
  }

  /** A cancellation that can still set the RFQ back to open. */
  predicate MayReopen(pc: Pc, r: RfqId) {
    pc == CancelReady(r) || pc == CancelRejecting(r) || pc == CancelUndoing(r)
  }

  /** A new call can begin: the RFQ is open, or about to be reopened. */
  ghost predicate CanBegin(s: Sys, r: RfqId) {
    || (r in s.db.rfqs && s.db.rfqs[r].status == Open)
    || exists t :: t in s.calls && MayReopen(s.calls[t], r)
  }

  ghost predicate NewCallMaySend(s: Sys, r: RfqId, b: BidId) {
    Linked(s.db, b) && IsPending(s.db, b) && Acceptable(s.db, r, b, s.clock) && CanBegin(s, r)
  }

  ghost predicate MaySend(s: Sys, r: RfqId, b: BidId) {
    (exists t :: t in s.calls && CallMaySend(s.db, s.calls[t], r, b)) || NewCallMaySend(s, r, b)
  }

  /** The sealed RFQ has been finalized with b as its best bid. */
  predicate Names(db: Db, r: RfqId, b: BidId) {
    r in db.rfqs && db.rfqs[r].sealed && db.rfqs[r].best == Some(b)
  }

  // ---- the best bid is a bid of the RFQ

  ghost predicate NamedOk(db: Db) {
    forall r :: r in db.rfqs && db.rfqs[r].best.Some? ==>
      db.rfqs[r].best.value in db.bids && db.bids[db.rfqs[r].best.value].rfq == r
  }

  lemma WinnerIsABid(db: Db, now: int, r: RfqId)
    requires r in db.rfqs && Winner(Ballot(db, r, now)).Some?
    ensures var b := Winner(Ballot(db, r, now)).value; b in db.bids && db.bids[b].rfq == r
  {
  }

  lemma TxKeepsNamed(db: Db, tx: Tx)
    requires IdsOk(db) && LinksOk(db) && NamedOk(db)
    ensures NamedOk(Apply(db, tx))
  {
    var d := Apply(db, tx);
    TxGrows(db, tx);
    forall r | r in d.rfqs && d.rfqs[r].best.Some?
      ensures d.rfqs[r].best.value in d.bids && d.bids[d.rfqs[r].best.value].rfq == r
    {
      SameRfqs(db, tx);
      TxKeepsResults(db, tx, r);
      if Counts(db, tx) && tx.r == r { WinnerIsABid(db, tx.now, r); }
    }
  }

  lemma SameRfqs(db: Db, tx: Tx)
    ensures Apply(db, tx).rfqs.Keys == db.rfqs.Keys
  {
  }

  lemma CreationKeepsNamed(db: Db, r: RfqId, rfq: Rfq)
    requires NamedOk(db) && rfq.best.None?
    ensures NamedOk(SetRfq(db, r, rfq))
  {
  }

  lemma StepKeepsNamed(s: Sys, a: Action)
    requires Inv(s) && NamedOk(s.db)
    ensures NamedOk(Step(s, a).db)
  {
    if !a.CreateRfq? {
      StepTables(s, a);
      TxKeepsNamed(s.db, TxOfStep(s, a));
    } else if FreshRfq(a.rfq, s.clock) {
      CreationKeepsNamed(s.db, a.r, a.rfq);
    }
  }

  lemma {:induction false} NamedAlways(schedule: seq<Action>)
    ensures NamedOk(Exec(Start, schedule).db)
  {
    if schedule != [] {
      NamedAlways(schedule[..|schedule| - 1]);
      InvAlways(schedule[..|schedule| - 1]);
      StepKeepsNamed(Exec(Start, schedule[..|schedule| - 1]), schedule[|schedule| - 1]);
    }
  }

  // ---- without it nothing is sent, now or later

  lemma LinkedBefore(db: Db, tx: Tx, b: BidId)
    requires IdsOk(db) && b in db.bids && Linked(Apply(db, tx), b)
    ensures Linked(db, b)
  {
    var d := Apply(db, tx);
    var c :| Reveals(d, c, b) && d.commits[c].status == Revealed;
    RevealedBefore(db, tx, c, b);
    assert Reveals(db, c, b);
  }

  lemma RevealedBefore(db: Db, tx: Tx, c: CommitId, b: BidId)
    requires IdsOk(db) && b in db.bids
    requires Reveals(Apply(db, tx), c, b) && Apply(db, tx).commits[c].status == Revealed
    ensures Reveals(db, c, b) && db.commits[c].status == Revealed
  {
  }

  /** No transaction touches what the tests on the best bid compare with the clock. */
  lemma TxKeepsTerms(db: Db, tx: Tx, r: RfqId)
    requires r in db.rfqs
    ensures r in Apply(db, tx).rfqs && Apply(db, tx).rfqs[r].deadline == db.rfqs[r].deadline
    ensures Apply(db, tx).rfqs[r].needsCredentials == db.rfqs[r].needsCredentials
  {
  }

  lemma OpenBefore(db: Db, tx: Tx, r: RfqId)
    requires r in db.rfqs && r in Apply(db, tx).rfqs && Apply(db, tx).rfqs[r].status == Open
    ensures db.rfqs[r].status == Open || tx == SetStatus(r, Open)
  {
  }

  /** What the tests on the best bid find in d, they find in db. */
  ghost predicate NothingGained(db: Db, d: Db, r: RfqId, b: BidId) {
    && (Linked(d, b) ==> Linked(db, b)) && (IsPending(d, b) ==> IsPending(db, b))
    && (forall now :: Acceptable(d, r, b, now) ==> Acceptable(db, r, b, now))
  }

  lemma NothingPendsAgain(db: Db, tx: Tx, b: BidId)
    requires IdsOk(db) && LinksOk(db) && b in db.bids
    ensures b in Apply(db, tx).bids && Apply(db, tx).bids[b].offer == db.bids[b].offer
    ensures IsPending(Apply(db, tx), b) ==> IsPending(db, b)
  {
    TxGrows(db, tx);
    assert BidGrows(db.bids[b], Apply(db, tx).bids[b]);
  }

  lemma TxGainsNothing(db: Db, tx: Tx, r: RfqId, b: BidId)
    requires IdsOk(db) && LinksOk(db) && r in db.rfqs && b in db.bids
    ensures NothingGained(db, Apply(db, tx), r, b)
  {
    var d := Apply(db, tx);
    NothingPendsAgain(db, tx, b);
    TxKeepsTerms(db, tx, r);
    if Linked(d, b) { LinkedBefore(db, tx, b); }
  }

  lemma CreationGainsNothing(db: Db, q: RfqId, rfq: Rfq, r: RfqId, b: BidId)
    requires r in db.rfqs && q !in db.rfqs
    ensures NothingGained(db, SetRfq(db, q, rfq), r, b)
  {
    var d := SetRfq(db, q, rfq);
    if c :| Reveals(d, c, b) && d.commits[c].status == Revealed { assert Reveals(db, c, b); }
  }

  lemma NameStays(s: Sys, a: Action, r: RfqId, b: BidId)
    requires Inv(s) && Names(s.db, r, b)
    ensures Names(Step(s, a).db, r, b)
  {
    assert RfqOk(s, r);
    StepGrows(s, a);
    assert RfqGrows(s.db.rfqs[r], Step(s, a).db.rfqs[r]);
  }

  lemma TestsBefore(s: Sys, a: Action, r: RfqId, b: BidId)
    requires Inv(s) && NamedOk(s.db) && Names(s.db, r, b)
    ensures Names(Step(s, a).db, r, b) && NothingGained(s.db, Step(s, a).db, r, b)
  {
    NameStays(s, a, r, b);
    if !a.CreateRfq? {
      StepTables(s, a);
      TxGainsNothing(s.db, TxOfStep(s, a), r, b);
    } else if a.r !in s.db.rfqs {
      CreationGainsNothing(s.db, a.r, a.rfq, r, b);
    }
  }

  lemma StepOpens(s: Sys, a: Action, r: RfqId)
    requires r in s.db.rfqs && r in Step(s, a).db.rfqs && Step(s, a).db.rfqs[r].status == Open
    ensures s.db.rfqs[r].status == Open || TxOfStep(s, a) == SetStatus(r, Open)
  {
    if !a.CreateRfq? {
      StepTables(s, a);
      OpenBefore(s.db, TxOfStep(s, a), r);
    }
  }

  lemma UndoingOpens(s: Sys, a: Action, r: RfqId)
    requires TxOfStep(s, a) == SetStatus(r, Open)
    ensures a.t in s.calls && s.calls[a.t] == CancelUndoing(r)
  {
  }

  lemma BeginsBefore(s: Sys, a: Action, r: RfqId)
    requires r in s.db.rfqs && CanBegin(Step(s, a), r)
    ensures CanBegin(s, r)
  {
    var n := Step(s, a);
    if r in n.db.rfqs && n.db.rfqs[r].status == Open {
      StepOpens(s, a, r);
      if s.db.rfqs[r].status != Open { UndoingOpens(s, a, r); }
    } else {
      var t :| t in n.calls && MayReopen(n.calls[t], r);
      ReopensBefore(s, a, r, t);
    }
  }

  lemma ReopensBefore(s: Sys, a: Action, r: RfqId, t: Tid)
    requires r in s.db.rfqs && t in Step(s, a).calls && MayReopen(Step(s, a).calls[t], r)
    ensures (t in s.calls && MayReopen(s.calls[t], r)) || s.db.rfqs[r].status == Open
  {
  }

  /** The points a call can have come from: to its chain call from reading the bid, ... */
  lemma SendingBefore(s: Sys, a: Action, r: RfqId, b: BidId, t: Tid)
    requires t in Step(s, a).calls && Step(s, a).calls[t] == AcceptSending(r, b)
    ensures t in s.calls
    ensures s.calls[t] == AcceptSending(r, b) || (s.calls[t] == AcceptBidRead(r, b) && Linked(s.db, b))
  {
  }

  /** ... there from being on its way, ... */
  lemma BidReadBefore(s: Sys, a: Action, r: RfqId, b: BidId, t: Tid)
    requires Inv(s) && Names(s.db, r, b) && t in Step(s, a).calls && Step(s, a).calls[t] == AcceptBidRead(r, b)
    ensures t in s.calls
    ensures s.calls[t] == AcceptBidRead(r, b)
      || (OnItsWay(s.calls[t], r, b) && IsPending(s.db, b) && Acceptable(s.db, r, b, s.calls[t].now))
  {
    if t in s.calls { assert CallOk(s.db, s.calls[t]); }
  }

  /** ... and on its way from its beginning. */
  lemma OnItsWayBefore(s: Sys, a: Action, r: RfqId, b: BidId, t: Tid)
    requires r in s.db.rfqs && t in Step(s, a).calls && OnItsWay(Step(s, a).calls[t], r, b)
    ensures var now := Step(s, a).calls[t].now;
      || (t in s.calls && OnItsWay(s.calls[t], r, b) && s.calls[t].now == now)
      || (now == s.clock && s.db.rfqs[r].status == Open)
  {
  }

  lemma CallMaySendBefore(s: Sys, a: Action, r: RfqId, b: BidId, t: Tid)
    requires Inv(s) && Names(s.db, r, b) && NothingGained(s.db, Step(s, a).db, r, b)
    requires t in Step(s, a).calls && CallMaySend(Step(s, a).db, Step(s, a).calls[t], r, b)
    ensures MaySend(s, r, b)
  {
    var pc := Step(s, a).calls[t];
    if pc == AcceptSending(r, b) {
      SendingBefore(s, a, r, b, t);
    } else if pc == AcceptBidRead(r, b) {
      BidReadBefore(s, a, r, b, t);
    } else {
      OnItsWayBefore(s, a, r, b, t);
    }
    assert (t in s.calls && CallMaySend(s.db, s.calls[t], r, b)) || NewCallMaySend(s, r, b);
  }

  lemma LaterIsNoEasier(s: Sys, a: Action, r: RfqId, b: BidId)
    requires Acceptable(s.db, r, b, Step(s, a).clock)
    ensures Acceptable(s.db, r, b, s.clock)
  {
    assert Step(s, a).clock >= s.clock;
  }

  lemma MaySendBefore(s: Sys, a: Action, r: RfqId, b: BidId)
    requires Inv(s) && NamedOk(s.db) && Names(s.db, r, b) && MaySend(Step(s, a), r, b)
    ensures MaySend(s, r, b)
  {
    TestsBefore(s, a, r, b);
    var n := Step(s, a);
    if NewCallMaySend(n, r, b) {
      BeginsBefore(s, a, r);
      LaterIsNoEasier(s, a, r, b);
      assert NewCallMaySend(s, r, b);
    } else {
      var t :| t in n.calls && CallMaySend(n.db, n.calls[t], r, b);
      CallMaySendBefore(s, a, r, b, t);
    }
  }

  /** A step that sends for the RFQ is a call's that stands at its chain call. */
  lemma SenderStands(s: Sys, a: Action, r: RfqId, b: BidId)
    requires Inv(s) && Names(s.db, r, b)
    ensures var n := Step(s, a);
      |s.sends| <= |n.sends| && n.sends[..|s.sends|] == s.sends
      && forall i :: |s.sends| <= i < |n.sends| && n.sends[i].r == r ==>
           a.Advance? && a.t in s.calls && s.calls[a.t] == AcceptSending(r, b) && n.sends[i] == Send(a.t, r, b)
  {
    if a.Advance? && a.t in s.calls { assert CallOk(s.db, s.calls[a.t]); }
  }

  /** The sends of the RFQ after the first n. */
  ghost predicate SendsSince(t: Sys, n: nat, r: RfqId) {
    exists i :: n <= i < |t.sends| && t.sends[i].r == r
  }

  lemma {:induction false} NothingMoreIsSent(s: Sys, more: seq<Action>, r: RfqId, b: BidId)
    requires Inv(s) && NamedOk(s.db) && Names(s.db, r, b) && !MaySend(s, r, b)
    ensures var t := Exec(s, more);
      && Inv(t) && NamedOk(t.db) && Names(t.db, r, b) && !MaySend(t, r, b)
      && |s.sends| <= |t.sends| && !SendsSince(t, |s.sends|, r)
  {
    if more != [] {
      var t, a := Exec(s, more[..|more| - 1]), more[|more| - 1];
      NothingMoreIsSent(s, more[..|more| - 1], r, b);
      StepKeepsInv(t, a);
      StepKeepsNamed(t, a);
      TestsBefore(t, a, r, b);
      if MaySend(Step(t, a), r, b) { MaySendBefore(t, a, r, b); }
      SenderStands(t, a, r, b);
      assert forall u :: u in t.calls ==> !CallMaySend(t.db, t.calls[u], r, b);
      var n := Step(t, a);
      forall i | |s.sends| <= i < |n.sends| ensures n.sends[i].r != r {
        if i < |t.sends| { assert n.sends[i] == t.sends[i]; }
      }
    }
  }

  // ---- with it another escrow can be sent

  /** Some continuation sends for the RFQ. */
  ghost predicate CanSendAgain(s: Sys, r: RfqId) {
    exists more :: SendsSince(Exec(s, more), |s.sends|, r)
  }

  lemma ThenSends(s: Sys, a: Action, r: RfqId)
    requires CanSendAgain(Step(s, a), r) && |s.sends| <= |Step(s, a).sends|
    ensures CanSendAgain(s, r)
  {
    var more :| SendsSince(Exec(Step(s, a), more), |Step(s, a).sends|, r);
    assert Exec(s, [a]) == Step(s, a) by { assert [a][..0] == [] && Exec(s, []) == s; }
    ExecSplits(s, [a], more);
    assert SendsSince(Exec(s, [a] + more), |s.sends|, r);
  }

  lemma FromSending(s: Sys, t: Tid, r: RfqId, b: BidId)
    requires t in s.calls && s.calls[t] == AcceptSending(r, b)
    ensures CanSendAgain(s, r)
  {
    var n := Step(s, Advance(t, true));
    assert n.sends == s.sends + [Send(t, r, b)] && n.sends[|s.sends|].r == r;
    assert Exec(s, [Advance(t, true)]) == n by { assert [Advance(t, true)][..0] == [] && Exec(s, []) == s; }
    assert SendsSince(Exec(s, [Advance(t, true)]), |s.sends|, r);
  }

  lemma FromBidRead(s: Sys, t: Tid, r: RfqId, b: BidId)
    requires t in s.calls && s.calls[t] == AcceptBidRead(r, b) && Linked(s.db, b)
    ensures CanSendAgain(s, r)
  {
    assert Step(s, Advance(t, true)) == Goto(s, t, AcceptSending(r, b));
    FromSending(Goto(s, t, AcceptSending(r, b)), t, r, b);
    ThenSends(s, Advance(t, true), r);
  }

  /** The best bid b of the finalized RFQ is still there to be accepted. */
  ghost predicate Standing(s: Sys, r: RfqId, b: BidId) {
    && Names(s.db, r, b) && IsFinal(s.db.rfqs[r]) && s.clock > s.db.rfqs[r].revealDeadline
    && IsPending(s.db, b) && s.db.bids[b].rfq == r && Linked(s.db, b)
  }

  lemma FromChosen(s: Sys, t: Tid, r: RfqId, b: BidId, now: int)
    requires Standing(s, r, b) && Acceptable(s.db, r, b, now)
    requires t in s.calls && s.calls[t] == AcceptChosen(now, r, b, Some(b))
    ensures CanSendAgain(s, r)
  {
    assert Step(s, Advance(t, true)) == Goto(s, t, AcceptBidRead(r, b));
    FromBidRead(Goto(s, t, AcceptBidRead(r, b)), t, r, b);
    ThenSends(s, Advance(t, true), r);
  }

  lemma FromTheWay(s: Sys, t: Tid, r: RfqId, b: BidId)
    requires Standing(s, r, b) && t in s.calls && OnItsWay(s.calls[t], r, b)
    requires Acceptable(s.db, r, b, s.calls[t].now)
    ensures CanSendAgain(s, r)
  {
    var now := s.calls[t].now;
    if s.calls[t].AcceptChosen? {
      FromChosen(s, t, r, b, now);
    } else {
      var chosen := AcceptChosen(now, r, b, Some(b));
      assert Step(s, Advance(t, true)) == Goto(s, t, chosen);
      FromChosen(Goto(s, t, chosen), t, r, b, now);
      ThenSends(s, Advance(t, true), r);
    }
  }

  lemma {:induction false} UnusedId(used: set<Tid>) returns (t: Tid)
    ensures forall u :: u in used ==> u < t
    decreases used
  {
    if used == {} {
      t := 0;
    } else {
      var u :| u in used;
      var rest := UnusedId(used - {u});
      t := if u < rest then rest else u + 1;
      assert forall v :: v in used ==> v == u || v in used - {u};
    }
  }

  lemma FromOpen(s: Sys, r: RfqId, b: BidId)
    requires Standing(s, r, b) && Acceptable(s.db, r, b, s.clock) && s.db.rfqs[r].status == Open
    ensures CanSendAgain(s, r)
  {
    var t := UnusedId(s.calls.Keys);
    var started := AcceptStarted(s.clock, r, b);
    assert Step(s, StartAccept(t, r, b)) == Goto(s, t, started);
    FromTheWay(Goto(s, t, started), t, r, b);
    ThenSends(s, StartAccept(t, r, b), r);
  }

  /** A cancelling call writes the status of the RFQ and goes on. */
  function Rewritten(s: Sys, t: Tid, r: RfqId, status: RfqStatus, pc: Pc): Sys {
    Goto(s.(db := SetRfqStatus(s.db, r, status)), t, pc)
  }

  lemma StillStanding(s: Sys, t: Tid, r: RfqId, b: BidId, status: RfqStatus, pc: Pc)
    requires Standing(s, r, b) && Acceptable(s.db, r, b, s.clock)
    ensures var n := Rewritten(s, t, r, status, pc);
      Standing(n, r, b) && Acceptable(n.db, r, b, n.clock) && n.db.rfqs[r].status == status
  {
    var c :| Reveals(s.db, c, b) && s.db.commits[c].status == Revealed;
    assert Reveals(SetRfqStatus(s.db, r, status), c, b);
  }

  lemma FromReopening(s: Sys, t: Tid, r: RfqId, b: BidId)
    requires Standing(s, r, b) && Acceptable(s.db, r, b, s.clock) && t in s.calls && MayReopen(s.calls[t], r)
    ensures CanSendAgain(s, r)
    decreases if s.calls[t].CancelReady? then 2 else if s.calls[t].CancelRejecting? then 1 else 0
  {
    if s.calls[t].CancelUndoing? {
      var n := Rewritten(s, t, r, Open, Done);
      assert Step(s, Advance(t, true)) == n;
      StillStanding(s, t, r, b, Open, Done);
      FromOpen(n, r, b);
      ThenSends(s, Advance(t, true), r);
    } else if s.calls[t].CancelRejecting? {
      var n := Goto(s, t, CancelUndoing(r));
      assert Step(s, Advance(t, false)) == n;
      FromReopening(n, t, r, b);
      ThenSends(s, Advance(t, false), r);
    } else {
      var n := Rewritten(s, t, r, Cancelled, CancelRejecting(r));
      assert Step(s, Advance(t, true)) == n;
      StillStanding(s, t, r, b, Cancelled, CancelRejecting(r));
      FromReopening(n, t, r, b);
      ThenSends(s, Advance(t, true), r);
    }
  }

  lemma NamedIsStanding(s: Sys, r: RfqId, b: BidId)
    requires Inv(s) && TimesOk(s) && NamedOk(s.db) && Names(s.db, r, b) && Linked(s.db, b) && IsPending(s.db, b)
    ensures Standing(s, r, b)
  {
    assert RfqOk(s, r);
  }

  lemma MaySendIsEnough(s: Sys, r: RfqId, b: BidId)
    requires Inv(s) && TimesOk(s) && NamedOk(s.db) && Names(s.db, r, b) && MaySend(s, r, b)
    ensures CanSendAgain(s, r)
  {
    if t :| t in s.calls && CallMaySend(s.db, s.calls[t], r, b) {
      if s.calls[t].AcceptSending? {
        FromSending(s, t, r, b);
      } else if s.calls[t].AcceptBidRead? {
        FromBidRead(s, t, r, b);
      } else {
        NamedIsStanding(s, r, b);
        FromTheWay(s, t, r, b);
      }
    } else {
      NamedIsStanding(s, r, b);
      if s.db.rfqs[r].status == Open {
        FromOpen(s, r, b);
      } else {
        var t :| t in s.calls && MayReopen(s.calls[t], r);
        FromReopening(s, t, r, b);
      }
    }
  }

  /** In every reachable state, another escrow can still be sent for a finalized sealed RFQ with best bid b if
      and only if a call stands at its chain call for b; or a commit that is still "revealed" links to b and a
      call has read b and is about to look the commit up; or such a commit links to b, b is pending, and a call
      under way, or a new one begun now or after a cancellation has put the RFQ back, still finds the deadline,
      the expiry and the credentials in order. */
  lemma AnotherSendExactly(schedule: seq<Action>, r: RfqId, b: BidId)
    requires Names(Exec(Start, schedule).db, r, b)
    ensures CanSendAgain(Exec(Start, schedule), r) <==> MaySend(Exec(Start, schedule), r, b)
  {
    InvAlways(schedule);
    TimesAlways(schedule);
    NamedAlways(schedule);
    var s := Exec(Start, schedule);
    if MaySend(s, r, b) {
      MaySendIsEnough(s, r, b);
    } else {
      forall more ensures !SendsSince(Exec(s, more), |s.sends|, r) { NothingMoreIsSent(s, more, r, b); }
    }
  }

  // ---- once the bid is accepted

  /** No commit that links to an accepted bid is still "revealed". */
  ghost predicate AcceptedUnlinked(db: Db) {
    forall b :: b in db.bids && db.bids[b].status == Accepted ==> !Linked(db, b)
  }

  lemma AwardUnlinks(db: Db, r: RfqId, b: BidId)
    requires b in db.bids && db.bids[b].status == Pending && r in db.rfqs
    ensures !Linked(AcceptTx(db, r, b), b)
  {
    var d := AcceptTx(db, r, b);
    forall c | Reveals(d, c, b) ensures d.commits[c].status != Revealed {
      assert MarkWinningCommit(AwardBid(db, r, b), b).commits[c].status == Won;
    }
  }

  lemma TxKeepsUnlinked(db: Db, tx: Tx)
    requires IdsOk(db) && Fits(db, tx) && AcceptedUnlinked(db)
    ensures AcceptedUnlinked(Apply(db, tx))
  {
    var d := Apply(db, tx);
    forall b | b in d.bids && d.bids[b].status == Accepted ensures !Linked(d, b) {
      TxAccepts(db, tx, b);
      if db.bids[b].status == Accepted {
        if Linked(d, b) { LinkedBefore(db, tx, b); }
      } else {
        Awarded(db, tx, b);
        AwardUnlinks(db, tx.r, b);
      }
    }
  }

  lemma Awarded(db: Db, tx: Tx, b: BidId)
    requires b in db.bids && db.bids[b].status != Accepted && tx.Award? && tx.b == b
    requires b in Apply(db, tx).bids && Apply(db, tx).bids[b].status == Accepted
    ensures db.bids[b].status == Pending && tx.r in db.rfqs
  {
  }

  lemma {:induction false} UnlinkedAlways(schedule: seq<Action>)
    ensures AcceptedUnlinked(Exec(Start, schedule).db)
  {
    if schedule != [] {
      var s, a := Exec(Start, schedule[..|schedule| - 1]), schedule[|schedule| - 1];
      UnlinkedAlways(schedule[..|schedule| - 1]);
      InvAlways(schedule[..|schedule| - 1]);
      StepFits(s, a);
      if a.CreateRfq? {
        SameRowsKeepUnlinked(s.db, Step(s, a).db);
      } else {
        StepTables(s, a);
        TxKeepsUnlinked(s.db, TxOfStep(s, a));
      }
    }
  }

  lemma SameRowsKeepUnlinked(db: Db, d: Db)
    requires AcceptedUnlinked(db) && d.bids == db.bids && d.commits == db.commits
    ensures AcceptedUnlinked(d)
  {
    forall b | b in d.bids && d.bids[b].status == Accepted ensures !Linked(d, b) {
      if c :| Reveals(d, c, b) && d.commits[c].status == Revealed { assert Reveals(db, c, b); }
    }
  }

  /** Once the best bid has been accepted, another escrow can be sent if and only if a call already stands at its
      chain call. */
  lemma AfterAcceptanceExactly(schedule: seq<Action>, r: RfqId, b: BidId)
    requires var db := Exec(Start, schedule).db; Names(db, r, b) && b in db.bids && db.bids[b].status == Accepted
    ensures var s := Exec(Start, schedule);
      CanSendAgain(s, r) <==> exists t :: t in s.calls && s.calls[t] == AcceptSending(r, b)
  {
    UnlinkedAlways(schedule);
    AnotherSendExactly(schedule, r, b);
    var s := Exec(Start, schedule);
    if t :| t in s.calls && s.calls[t] == AcceptSending(r, b) { assert CallMaySend(s.db, s.calls[t], r, b); }
  }
}
