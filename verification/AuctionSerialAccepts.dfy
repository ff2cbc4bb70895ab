/** A caller's rule against second escrows: accept one call at a time, and let none fail after its chain call. */
module AuctionSerialAccepts {
  import opened Auction
  import opened AuctionRuns
  import opened AuctionSends
  import opened AuctionResends

  /** The call accepts a bid of the RFQ and has not returned. */
  predicate Accepting(pc: Pc, r: RfqId) {
    && (pc.AcceptStarted? || pc.AcceptFinalizing? || pc.AcceptChosen? || pc.AcceptOpen? || pc.AcceptBidRead?
        || pc.AcceptSending? || pc.AcceptReady?)
    && pc.r == r
  }

  /** The step does not begin an accept of the RFQ while another is under way, and no accepting call fails
      after it has created its escrow. */
  ghost predicate SerialStep(s: Sys, a: Action, r: RfqId) {
    && (a.StartAccept? && a.r == r ==> forall t :: t in s.calls ==> !Accepting(s.calls[t], r))
    && (a.Advance? && a.t in s.calls && s.calls[a.t].AcceptReady? && s.calls[a.t].r == r ==> a.ok)
  }

  ghost predicate Serial(schedule: seq<Action>, r: RfqId) {
    schedule != [] ==>
      && Serial(schedule[..|schedule| - 1], r)
      && SerialStep(Exec(Start, schedule[..|schedule| - 1]), schedule[|schedule| - 1], r)
  }

  ghost predicate OneAtATime(s: Sys, r: RfqId) {
    forall t, u :: t in s.calls && u in s.calls && Accepting(s.calls[t], r) && Accepting(s.calls[u], r) ==> t == u
  }

  ghost predicate OneSend(s: Sys, r: RfqId) {
    forall i, j :: 0 <= i < |s.sends| && 0 <= j < |s.sends| && s.sends[i].r == r && s.sends[j].r == r ==> i == j
  }

  ghost predicate HasSent(s: Sys, r: RfqId) {
    exists i :: 0 <= i < |s.sends| && s.sends[i].r == r
  }

  ghost predicate IsReady(s: Sys, r: RfqId, b: BidId) {
    exists t :: t in s.calls && s.calls[t] == AcceptReady(r, b)
  }

  /** After the send its call is still to accept the bid, or no other escrow can be sent any more. */
  ghost predicate SentForGood(s: Sys, r: RfqId) {
    HasSent(s, r) ==> exists b :: Names(s.db, r, b) && (IsReady(s, r, b) || !MaySend(s, r, b))
  }

  ghost predicate SerialOk(s: Sys, r: RfqId) {
    OneAtATime(s, r) && OneSend(s, r) && SentForGood(s, r)
  }

  lemma AcceptingBefore(s: Sys, a: Action, r: RfqId, t: Tid)
    requires t in Step(s, a).calls && Accepting(Step(s, a).calls[t], r)
    ensures (t in s.calls && Accepting(s.calls[t], r)) || (t !in s.calls && a.StartAccept? && a.r == r && a.t == t)
  {
  }

  lemma SerialKeepsOneAtATime(s: Sys, a: Action, r: RfqId)
    requires OneAtATime(s, r) && SerialStep(s, a, r)
    ensures OneAtATime(Step(s, a), r)
  {
    var n := Step(s, a);
    forall t, u | t in n.calls && u in n.calls && Accepting(n.calls[t], r) && Accepting(n.calls[u], r)
      ensures t == u
    {
      AcceptingBefore(s, a, r, t);
      AcceptingBefore(s, a, r, u);
    }
  }

  /** The step creates an escrow for the RFQ. */
  predicate SendsFor(s: Sys, a: Action, r: RfqId) {
    a.Advance? && a.ok && a.t in s.calls && s.calls[a.t].AcceptSending? && s.calls[a.t].r == r
  }

  lemma StepSendsFor(s: Sys, a: Action, r: RfqId)
    ensures |s.sends| <= |Step(s, a).sends| <= |s.sends| + 1 && Step(s, a).sends[..|s.sends|] == s.sends
    ensures |Step(s, a).sends| > |s.sends| ==> (Step(s, a).sends[|s.sends|].r == r <==> SendsFor(s, a, r))
    ensures SendsFor(s, a, r) ==> |Step(s, a).sends| > |s.sends|
    ensures SendsFor(s, a, r) ==> Step(s, a).calls[a.t] == AcceptReady(r, s.calls[a.t].b)
  {
    StepSends(s, a);
  }

  lemma SenderIsAlone(s: Sys, t: Tid, r: RfqId, b: BidId)
    requires OneAtATime(s, r) && t in s.calls && s.calls[t] == AcceptSending(r, b)
    ensures MaySend(s, r, b) && forall d :: !IsReady(s, r, d)
  {
    assert CallMaySend(s.db, s.calls[t], r, b) && Accepting(s.calls[t], r);
    forall u, d | u in s.calls ensures s.calls[u] != AcceptReady(r, d) {
      assert Accepting(s.calls[u], r) ==> u == t;
    }
  }

  /** Under the rule a step that sends is the first to do so. */
  lemma SerialSendIsFirst(s: Sys, a: Action, r: RfqId)
    requires Inv(s) && SerialOk(s, r) && r in s.db.rfqs && s.db.rfqs[r].sealed && SendsFor(s, a, r)
    ensures !HasSent(s, r) && Names(s.db, r, s.calls[a.t].b)
  {
    assert CallOk(s.db, s.calls[a.t]);
    SenderIsAlone(s, a.t, r, s.calls[a.t].b);
  }

  lemma SerialKeepsOneSend(s: Sys, a: Action, r: RfqId)
    requires Inv(s) && SerialOk(s, r) && r in s.db.rfqs && s.db.rfqs[r].sealed
    ensures OneSend(Step(s, a), r)
    ensures HasSent(Step(s, a), r) ==> HasSent(s, r) || SendsFor(s, a, r)
  {
    var n := Step(s, a);
    StepSendsFor(s, a, r);
    assert forall i :: 0 <= i < |s.sends| ==> n.sends[i] == s.sends[i];
    if SendsFor(s, a, r) { SerialSendIsFirst(s, a, r); }
  }

  /** The transaction of a call that has sent takes the bid out of "pending". */
  lemma AwardEndsIt(s: Sys, t: Tid, r: RfqId, b: BidId)
    requires Inv(s) && OneAtATime(s, r) && t in s.calls && s.calls[t] == AcceptReady(r, b)
    ensures var n := Step(s, Advance(t, true));
      !IsPending(n.db, b) && forall u :: u in n.calls ==> !Accepting(n.calls[u], r)
  {
    assert CallOk(s.db, s.calls[t]) && Accepting(s.calls[t], r);
    assert Step(s, Advance(t, true)).db == AcceptTx(s.db, r, b);
  }

  lemma NobodyMaySend(s: Sys, r: RfqId, b: BidId)
    requires !IsPending(s.db, b) && forall u :: u in s.calls ==> !Accepting(s.calls[u], r)
    ensures !MaySend(s, r, b)
  {
    forall t | t in s.calls ensures !CallMaySend(s.db, s.calls[t], r, b) {
      assert !Accepting(s.calls[t], r);
    }
  }

  lemma ReadyStaysOrEnds(s: Sys, a: Action, r: RfqId, b: BidId)
    requires Inv(s) && OneAtATime(s, r) && SerialStep(s, a, r) && IsReady(s, r, b)
    ensures IsReady(Step(s, a), r, b) || !MaySend(Step(s, a), r, b)
  {
    var t :| t in s.calls && s.calls[t] == AcceptReady(r, b);
    if a == Advance(t, true) {
      AwardEndsIt(s, t, r, b);
      NobodyMaySend(Step(s, a), r, b);
    } else {
      ReadyStays(s, a, t);
    }
  }

  lemma ReadyStays(s: Sys, a: Action, t: Tid)
    requires t in s.calls && (!a.Advance? || a.t != t)
    ensures t in Step(s, a).calls && Step(s, a).calls[t] == s.calls[t]
  {
  }

  lemma SerialKeepsSentForGood(s: Sys, a: Action, r: RfqId)
    requires Inv(s) && NamedOk(s.db) && SerialOk(s, r) && SerialStep(s, a, r)
    requires r in s.db.rfqs && s.db.rfqs[r].sealed
    ensures SentForGood(Step(s, a), r)
  {
    var n := Step(s, a);
    SerialKeepsOneSend(s, a, r);
    if SendsFor(s, a, r) {
      StepSendsFor(s, a, r);
      SerialSendIsFirst(s, a, r);
      NameStays(s, a, r, s.calls[a.t].b);
      assert IsReady(n, r, s.calls[a.t].b);
    } else if HasSent(s, r) {
      var b :| Names(s.db, r, b) && (IsReady(s, r, b) || !MaySend(s, r, b));
      NameStays(s, a, r, b);
      if IsReady(s, r, b) { ReadyStaysOrEnds(s, a, r, b); } else if MaySend(n, r, b) { MaySendBefore(s, a, r, b); }
    }
  }

  /** Nothing happens to an RFQ before it is created. */
  lemma NothingBeforeCreation(s: Sys, r: RfqId)
    requires Inv(s) && SendsOk(s) && r !in s.db.rfqs
    ensures !HasSent(s, r) && forall t :: t in s.calls ==> !Accepting(s.calls[t], r)
  {
    forall t | t in s.calls ensures !Accepting(s.calls[t], r) { assert CallOk(s.db, s.calls[t]); }
  }

  lemma CreationIsSerialOk(s: Sys, a: Action, r: RfqId)
    requires Inv(s) && SendsOk(s) && r !in s.db.rfqs
    ensures SerialOk(Step(s, a), r)
  {
    var n := Step(s, a);
    NothingBeforeCreation(s, r);
    StepSendsFor(s, a, r);
    forall t | t in n.calls ensures !Accepting(n.calls[t], r) {
      if Accepting(n.calls[t], r) { AcceptingBefore(s, a, r, t); }
    }
    if a.Advance? && a.t in s.calls { assert !Accepting(s.calls[a.t], r); }
    assert forall i :: 0 <= i < |s.sends| ==> n.sends[i] == s.sends[i];
  }

  lemma SealedBefore(s: Sys, a: Action, r: RfqId)
    requires Inv(s) && r in s.db.rfqs
    ensures r in Step(s, a).db.rfqs && Step(s, a).db.rfqs[r].sealed == s.db.rfqs[r].sealed
  {
    StepGrows(s, a);
    assert RfqGrows(s.db.rfqs[r], Step(s, a).db.rfqs[r]);
  }

  lemma {:induction false} SerialAlways(schedule: seq<Action>, r: RfqId)
    requires r in Exec(Start, schedule).db.rfqs && Exec(Start, schedule).db.rfqs[r].sealed && Serial(schedule, r)
    ensures SerialOk(Exec(Start, schedule), r)
  {
    if schedule != [] {
      var init, a := schedule[..|schedule| - 1], schedule[|schedule| - 1];
      var s := Exec(Start, init);
      InvAlways(init);
      NamedAlways(init);
      SendsAlways(init);
      if r in s.db.rfqs {
        SealedBefore(s, a, r);
        SerialAlways(init, r);
        SerialKeepsOneAtATime(s, a, r);
        SerialKeepsOneSend(s, a, r);
        SerialKeepsSentForGood(s, a, r);
      } else {
        CreationIsSerialOk(s, a, r);
      }
    }
  }

  /** When accepting calls for a sealed RFQ run one after the other, and none fails after its chain call, only
      one escrow is sent for it. */
  lemma SerialAcceptsSendOnce(schedule: seq<Action>, r: RfqId, i: nat, j: nat)
    requires r in Exec(Start, schedule).db.rfqs && Exec(Start, schedule).db.rfqs[r].sealed && Serial(schedule, r)
    requires i < |Exec(Start, schedule).sends| && j < |Exec(Start, schedule).sends|
    requires Exec(Start, schedule).sends[i].r == r && Exec(Start, schedule).sends[j].r == r
    ensures i == j
  {
    SerialAlways(schedule, r);
  }
}
