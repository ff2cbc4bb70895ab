/** The escrows that accepting calls create on the chain, before the transaction that accepts the bid. */
module AuctionSends {
  import opened Common
  import opened Auction
  import opened AuctionRuns

  // ---- what is sent

  /** A send is for a bid of its RFQ, on a sealed one for the named best bid. */
  ghost predicate SendsOk(s: Sys) {
    forall i :: 0 <= i < |s.sends| ==> Fits(s.db, Award(s.sends[i].r, s.sends[i].b))
  }

  /** A call that has sent is past its chain call, and a call sends once. */
  ghost predicate SendersOk(s: Sys) {
    && (forall i :: 0 <= i < |s.sends| ==> s.sends[i].t in s.calls && Past(s.calls[s.sends[i].t]))
    && (forall i, j :: 0 <= i < j < |s.sends| ==> s.sends[i].t != s.sends[j].t)
  }

  predicate Past(pc: Pc) { pc.AcceptReady? || pc.Done? }

  lemma AwardFitsGrows(a: Db, b: Db, r: RfqId, bid: BidId)
    requires Grows(a, b) && Fits(a, Award(r, bid))
    requires forall q :: q in a.rfqs ==> (a.rfqs[q].best.Some? ==> IsFinal(a.rfqs[q]))
    ensures Fits(b, Award(r, bid))
  {
  }

  lemma StepSends(s: Sys, a: Action)
    ensures Step(s, a).sends == s.sends + if a.Advance? && a.t in s.calls then Sent(a.t, s.calls[a.t], a.ok) else []
  {
  }

  lemma StepKeepsSends(s: Sys, a: Action)
    requires Inv(s) && SendsOk(s)
    ensures SendsOk(Step(s, a))
  {
    var n := Step(s, a);
    StepGrows(s, a);
    StepSends(s, a);
    assert forall q :: q in s.db.rfqs ==> RfqOk(s, q);
    forall i | 0 <= i < |n.sends| ensures Fits(n.db, Award(n.sends[i].r, n.sends[i].b)) {
      if i == |s.sends| { assert CallOk(s.db, s.calls[a.t]); }
      AwardFitsGrows(s.db, n.db, n.sends[i].r, n.sends[i].b);
    }
  }

  lemma OtherCallsStay(s: Sys, a: Action, t: Tid)
    requires t in s.calls && Past(s.calls[t])
    ensures t in Step(s, a).calls && Past(Step(s, a).calls[t])
    ensures |Step(s, a).sends| > |s.sends| ==> a.t != t && a.t in Step(s, a).calls && Past(Step(s, a).calls[a.t])
  {
  }

  lemma StepKeepsSenders(s: Sys, a: Action)
    requires SendersOk(s)
    ensures SendersOk(Step(s, a))
  {
    var n := Step(s, a);
    StepSends(s, a);
    forall i | 0 <= i < |s.sends|
      ensures n.sends[i] == s.sends[i] && s.sends[i].t in n.calls && Past(n.calls[s.sends[i].t])
      ensures |n.sends| > |s.sends| ==> s.sends[i].t != a.t
    {
      OtherCallsStay(s, a, s.sends[i].t);
    }
  }

  lemma {:induction false} SendsAlways(schedule: seq<Action>)
    ensures SendsOk(Exec(Start, schedule)) && SendersOk(Exec(Start, schedule))
  {
    if schedule != [] {
      SendsAlways(schedule[..|schedule| - 1]);
      InvAlways(schedule[..|schedule| - 1]);
      StepKeepsSends(Exec(Start, schedule[..|schedule| - 1]), schedule[|schedule| - 1]);
      StepKeepsSenders(Exec(Start, schedule[..|schedule| - 1]), schedule[|schedule| - 1]);
    }
  }

  /** In every interleaving each escrow sent for a sealed RFQ is for its best bid, and each call sends at
      most one. */
  lemma SendsAreForTheBestBid(schedule: seq<Action>, i: nat)
    requires i < |Exec(Start, schedule).sends|
    ensures var s := Exec(Start, schedule);
      && s.sends[i].r in s.db.rfqs && s.sends[i].b in s.db.bids && s.db.bids[s.sends[i].b].rfq == s.sends[i].r
      && (s.db.rfqs[s.sends[i].r].sealed ==> s.db.rfqs[s.sends[i].r].best == Some(s.sends[i].b))
      && forall j :: 0 <= j < |s.sends| && s.sends[j].t == s.sends[i].t ==> j == i
  {
    SendsAlways(schedule);
  }

  // ---- what is kept

  /** A call whose escrow is on the chain owns an entry of the history. */
  ghost predicate OwnersOk(s: Sys) {
    forall t :: t in s.calls && s.calls[t].AcceptReady? ==> Owns(s, t, s.calls[t].r, s.calls[t].b)
  }

  ghost predicate Owns(s: Sys, t: Tid, r: RfqId, b: BidId) {
    exists i :: 0 <= i < |s.sends| && s.sends[i] == Send(t, r, b)
  }

  lemma ReadyBefore(s: Sys, a: Action, t: Tid)
    requires t in Step(s, a).calls && Step(s, a).calls[t].AcceptReady?
    ensures var pc := Step(s, a).calls[t];
      (t in s.calls && s.calls[t] == pc) || Step(s, a).sends == s.sends + [Send(t, pc.r, pc.b)]
  {
  }

  lemma StepKeepsOwners(s: Sys, a: Action)
    requires OwnersOk(s)
    ensures OwnersOk(Step(s, a))
  {
    var n := Step(s, a);
    StepSends(s, a);
    forall t | t in n.calls && n.calls[t].AcceptReady? ensures Owns(n, t, n.calls[t].r, n.calls[t].b) {
      var r, b := n.calls[t].r, n.calls[t].b;
      ReadyBefore(s, a, t);
      if t in s.calls && s.calls[t] == n.calls[t] {
        var i :| 0 <= i < |s.sends| && s.sends[i] == Send(t, r, b);
        assert n.sends[i] == Send(t, r, b);
      } else {
        assert n.sends[|s.sends|] == Send(t, r, b);
      }
    }
  }

  lemma {:induction false} OwnersAlways(schedule: seq<Action>)
    ensures OwnersOk(Exec(Start, schedule))
  {
    if schedule != [] {
      OwnersAlways(schedule[..|schedule| - 1]);
      StepKeepsOwners(Exec(Start, schedule[..|schedule| - 1]), schedule[|schedule| - 1]);
    }
  }

  /** The step accepts the pending bid that send i was for, in the transaction of the call that sent it. */
  ghost predicate Keeps(s: Sys, a: Action, i: nat) {
    && i < |s.sends| && a.Advance? && a.ok && s.sends[i].t == a.t
    && a.t in s.calls && s.calls[a.t] == AcceptReady(s.sends[i].r, s.sends[i].b)
    && s.sends[i].b in s.db.bids && s.db.bids[s.sends[i].b].status == Pending
  }

  /** The sends whose calls went on to accept their bid. */
  ghost function Kept(schedule: seq<Action>): set<nat> {
    if schedule == [] then {}
    else
      var s, a := Exec(Start, schedule[..|schedule| - 1]), schedule[|schedule| - 1];
      Kept(schedule[..|schedule| - 1]) + set i: nat | i < |s.sends| && Keeps(s, a, i)
  }

  /** Each kept send is for an accepted bid, and no two for the same. */
  ghost predicate KeptOk(s: Sys, kept: set<nat>) {
    && (forall i :: i in kept ==> KeptFor(s, i))
    && (forall i, j :: i in kept && j in kept && s.sends[i].b == s.sends[j].b ==> i == j)
  }

  ghost predicate KeptFor(s: Sys, i: nat) {
    i < |s.sends| && s.sends[i].b in s.db.bids && s.db.bids[s.sends[i].b].status == Accepted
  }

  /** A kept send is for the bid. */
  ghost predicate KeptBid(s: Sys, kept: set<nat>, b: BidId) {
    exists i :: i in kept && i < |s.sends| && s.sends[i].b == b
  }

  lemma KeepingAccepts(s: Sys, a: Action, i: nat)
    requires Inv(s) && SendsOk(s) && Keeps(s, a, i)
    ensures KeptFor(Step(s, a), i)
  {
    assert Fits(s.db, Award(s.sends[i].r, s.sends[i].b));
    assert Step(s, a).db == AcceptTx(s.db, s.sends[i].r, s.sends[i].b);
  }

  lemma KeptForStays(s: Sys, a: Action, i: nat)
    requires Inv(s) && KeptFor(s, i)
    ensures KeptFor(Step(s, a), i) && Step(s, a).sends[i] == s.sends[i]
  {
    StepGrows(s, a);
    StepSends(s, a);
    assert BidGrows(s.db.bids[s.sends[i].b], Step(s, a).db.bids[s.sends[i].b]);
  }

  /** A pending bid has no kept send yet, and the step's call has sent once. */
  lemma KeepsNoSecond(s: Sys, a: Action, kept: set<nat>, i: nat, j: nat)
    requires SendersOk(s) && KeptOk(s, kept) && i < |s.sends| && j < |s.sends| && s.sends[i].b == s.sends[j].b
    requires (i in kept || Keeps(s, a, i)) && (j in kept || Keeps(s, a, j))
    ensures i == j
  {
    assert i in kept ==> KeptFor(s, i);
    assert j in kept ==> KeptFor(s, j);
  }

  lemma StepKeepsKept(s: Sys, a: Action, kept: set<nat>)
    requires Inv(s) && SendsOk(s) && SendersOk(s) && KeptOk(s, kept)
    ensures KeptOk(Step(s, a), kept + set i: nat | i < |s.sends| && Keeps(s, a, i))
  {
    var n := Step(s, a);
    var now := set i: nat | i < |s.sends| && Keeps(s, a, i);
    StepSends(s, a);
    forall i | i in kept + now ensures KeptFor(n, i) && n.sends[i] == s.sends[i] {
      if i in now { KeepingAccepts(s, a, i); } else { KeptForStays(s, a, i); }
    }
    forall i, j | i in kept + now && j in kept + now && n.sends[i].b == n.sends[j].b ensures i == j {
      KeepsNoSecond(s, a, kept, i, j);
    }
  }

  lemma {:induction false} KeptAlways(schedule: seq<Action>)
    ensures KeptOk(Exec(Start, schedule), Kept(schedule))
  {
    if schedule != [] {
      var init := schedule[..|schedule| - 1];
      KeptAlways(init);
      InvAlways(init);
      SendsAlways(init);
      StepKeepsKept(Exec(Start, init), schedule[|schedule| - 1], Kept(init));
    }
  }

  /** A step that accepts a bid keeps a send for it. */
  lemma AcceptingKeeps(s: Sys, a: Action, b: BidId) returns (i: nat)
    requires Inv(s) && OwnersOk(s) && b in Step(s, a).db.bids && Step(s, a).db.bids[b].status == Accepted
    requires b in s.db.bids ==> s.db.bids[b].status != Accepted
    ensures Keeps(s, a, i) && s.sends[i].b == b
  {
    AcceptingAwards(s, a, b);
    i :| 0 <= i < |s.sends| && s.sends[i] == Send(a.t, s.calls[a.t].r, b);
  }

  lemma AcceptingAwards(s: Sys, a: Action, b: BidId)
    requires Inv(s) && b in Step(s, a).db.bids && Step(s, a).db.bids[b].status == Accepted
    requires b in s.db.bids ==> s.db.bids[b].status != Accepted
    ensures a.Advance? && a.ok && a.t in s.calls && s.calls[a.t].AcceptReady? && s.calls[a.t].b == b
    ensures b in s.db.bids && s.db.bids[b].status == Pending
  {
    if a.Advance? && a.t in s.calls {
      assert CallOk(s.db, s.calls[a.t]);
      TxAccepts(s.db, TxOfStep(s, a), b);
    }
  }

  lemma {:induction false} AcceptedIsKept(schedule: seq<Action>, b: BidId)
    requires b in Exec(Start, schedule).db.bids && Exec(Start, schedule).db.bids[b].status == Accepted
    ensures KeptBid(Exec(Start, schedule), Kept(schedule), b)
  {
    var init, a := schedule[..|schedule| - 1], schedule[|schedule| - 1];
    var s := Exec(Start, init);
    InvAlways(init);
    KeptAlways(schedule);
    StepSends(s, a);
    if b in s.db.bids && s.db.bids[b].status == Accepted {
      AcceptedIsKept(init, b);
      KeptAlways(init);
      var i :| i in Kept(init) && i < |s.sends| && s.sends[i].b == b;
      assert i in Kept(schedule);
    } else {
      OwnersAlways(init);
      var i := AcceptingKeeps(s, a, b);
      assert i in Kept(schedule);
    }
  }

  /** In every interleaving the accepted bids are exactly the bids of the kept sends, each of exactly one. */
  lemma AcceptedBidsAreKeptSends(schedule: seq<Action>, b: BidId)
    ensures var s, kept := Exec(Start, schedule), Kept(schedule);
      && (forall i :: i in kept ==> i < |s.sends|)
      && (b in s.db.bids && s.db.bids[b].status == Accepted <==> KeptBid(s, kept, b))
      && forall i, j :: i in kept && j in kept && s.sends[i].b == b && s.sends[j].b == b ==> i == j
  {
    var s := Exec(Start, schedule);
    KeptAlways(schedule);
    if b in s.db.bids && s.db.bids[b].status == Accepted { AcceptedIsKept(schedule, b); }
  }

  /** Of all the escrows sent for a sealed RFQ at most one is kept: the others stay on the chain without a
      bid that stands for them. */
  lemma AtMostOneSendIsKept(schedule: seq<Action>, i: nat, j: nat)
    requires i in Kept(schedule) && j in Kept(schedule)
    requires var s := Exec(Start, schedule);
      && i < |s.sends| && j < |s.sends| && s.sends[i].r == s.sends[j].r
      && s.sends[i].r in s.db.rfqs && s.db.rfqs[s.sends[i].r].sealed
    ensures i == j
  {
    KeptAlways(schedule);
    SendsAreForTheBestBid(schedule, i);
    SendsAreForTheBestBid(schedule, j);
  }
}
