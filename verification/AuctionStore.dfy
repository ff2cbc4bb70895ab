/** The auction's transactions as the service and the storage layer carry them out, statement by
    statement over mutable tables, proved to be the transactions of module Auction. */
module AuctionStore {
  import opened Common
  import opened Sorting
  import opened Auction
  import opened AuctionSelection

  /** What FinalizeSealedBidding returns. */
  datatype Summary = TooEarly | Summary(sealing: Sealing, best: Option<BidId>, eligible: seq<BidId>, unrevealed: nat)

  ghost function Members<T>(s: seq<T>): set<T> { set x | x in s }

  // ---- ballots, one bid at a time

  ghost function BallotAmong(db: Db, r: RfqId, now: int, among: set<BidId>): set<Candidate>
    requires r in db.rfqs
  {
    set b, c | b in among && b in db.bids && c in db.commits && IsCandidate(db, r, now, b, c) :: CandidateOf(db, b, c)
  }

  lemma BallotGrows(db: Db, r: RfqId, now: int, among: set<BidId>, b: BidId, c: CommitId)
    requires r in db.rfqs && RevealsAreUnique(db) && IsCandidate(db, r, now, b, c)
    ensures BallotAmong(db, r, now, among + {b}) == BallotAmong(db, r, now, among) + {CandidateOf(db, b, c)}
  {
    var more := BallotAmong(db, r, now, among + {b});
    forall x | x in more ensures x in BallotAmong(db, r, now, among) + {CandidateOf(db, b, c)} {
      var d, e :| && d in among + {b} && d in db.bids && e in db.commits
                  && IsCandidate(db, r, now, d, e) && x == CandidateOf(db, d, e);
      assert Reveals(db, e, d) && Reveals(db, c, b);
    }
  }

  lemma BallotSkips(db: Db, r: RfqId, now: int, among: set<BidId>, b: BidId)
    requires r in db.rfqs && forall c :: !IsCandidate(db, r, now, b, c)
    ensures BallotAmong(db, r, now, among + {b}) == BallotAmong(db, r, now, among)
  {
  }

  lemma BallotOfAll(db: Db, r: RfqId, now: int, among: set<BidId>)
    requires r in db.rfqs && among == set b | b in db.bids && db.bids[b].rfq == r
    ensures BallotAmong(db, r, now, among) == Ballot(db, r, now)
  {
  }

  /** The head of a sorted ballot is its winner. */
  lemma FirstWins(candidates: seq<Candidate>, best: Option<BidId>)
    requires SortedBy(CandidateLeq, candidates)
    requires best == if candidates == [] then None else Some(candidates[0].bid)
    ensures Wins(best, Members(candidates))
  {
    if candidates != [] {
      var x := candidates[0];
      forall y | y in candidates && y != x ensures CandidateLeq(x, y) && !CandidateLeq(y, x) {
        var j :| 0 <= j < |candidates| && candidates[j] == y;
        CandidateOrderIsTotal();
      }
      assert BestOf(x, Members(candidates));
    }
  }

  /** Striking one more bidder. */
  lemma DisciplineStep(start: map<Bidder, Discipline>, offenders: set<Bidder>, bidder: Bidder, now: int)
    requires bidder !in offenders
    ensures Disciplined(start, offenders + {bidder}, now)
      == Disciplined(start, offenders, now)[bidder := Strike(start, bidder, now)]
    ensures var before := Disciplined(start, offenders, now);
      (bidder in before <==> bidder in start) && (bidder in start ==> before[bidder] == start[bidder])
  {
  }

  class Store {
    var rfqs: map<RfqId, Rfq>
    var bids: map<BidId, Bid>
    var commits: map<CommitId, Commit>
    var discipline: map<Bidder, Discipline>
    var nextBid: BidId
    var nextCommit: CommitId

    constructor ()
      ensures Tables() == EmptyDb
    {
      rfqs, bids, commits, discipline, nextBid, nextCommit := map[], map[], map[], map[], 0, 0;
    }

    function Tables(): Db
      reads this
    {
      Db(rfqs, bids, commits, discipline, nextBid, nextCommit)
    }

    /** The bids of an RFQ, in some order. */
    method ListBids(r: RfqId) returns (listing: seq<BidId>)
      ensures Members(listing) == set b | b in bids && bids[b].rfq == r
    {
      listing := [];
      var todo := bids.Keys;
      while todo != {}
        invariant todo <= bids.Keys
        invariant Members(listing) == set b | b in bids && b !in todo && bids[b].rfq == r
      {
        var b :| b in todo;
        todo := todo - {b};
        assert Members(listing + [b]) == Members(listing) + {b};
        if bids[b].rfq == r { listing := listing + [b]; }
      }
    }

    /** The commits of an RFQ that are still "committed", in some order, each once. */
    method ListCommitted(r: RfqId) returns (listing: seq<CommitId>)
      ensures Members(listing) == set c | c in commits && commits[c].rfq == r && commits[c].status == Committed
      ensures |listing| == |Members(listing)|
    {
      listing := [];
      var todo := commits.Keys;
      while todo != {}
        invariant todo <= commits.Keys
        invariant Members(listing) ==
          set c | c in commits && c !in todo && commits[c].rfq == r && commits[c].status == Committed
        invariant |listing| == |Members(listing)|
      {
        var c :| c in todo;
        todo := todo - {c};
        if commits[c].rfq == r && commits[c].status == Committed {
          assert Members(listing + [c]) == Members(listing) + {c};
          listing := listing + [c];
        }
      }
    }

    method FindRevealing(b: BidId) returns (found: Option<CommitId>)
      ensures match found
        case Some(c) => Reveals(Tables(), c, b)
        case None => !exists c :: Reveals(Tables(), c, b)
    {
      if c :| c in commits && commits[c].bid == Some(b) {
        assert Reveals(Tables(), c, b);
        return Some(c);
      }
      return None;
    }

    /** The eligible bids of an RFQ, best first. */
    method EligibleCandidates(r: RfqId, now: int) returns (candidates: seq<Candidate>)
      requires r in rfqs && RevealsAreUnique(Tables())
      ensures Members(candidates) == Ballot(Tables(), r, now)
      ensures SortedBy(CandidateLeq, candidates)
      ensures forall i, j :: 0 <= i < j < |candidates| && candidates[i] != candidates[j] ==>
        CandidatePrecedes(candidates[i], candidates[j])
    {
      var listing := ListBids(r);
      var unsorted: seq<Candidate> := [];
      for i := 0 to |listing|
        invariant Members(unsorted) == BallotAmong(Tables(), r, now, Members(listing[..i]))
      {
        var b := listing[i];
        assert Members(listing[..i + 1]) == Members(listing[..i]) + {b};
        assert b in Members(listing);
        ghost var before := unsorted;
        if Offers(Tables(), r, now, b) {
          var found := FindRevealing(b);
          if found.Some? && commits[found.value].status == Revealed {
            unsorted := unsorted + [CandidateOf(Tables(), b, found.value)];
            assert Members(unsorted) == Members(before) + {CandidateOf(Tables(), b, found.value)};
            BallotGrows(Tables(), r, now, Members(listing[..i]), b, found.value);
          } else {
            BallotSkips(Tables(), r, now, Members(listing[..i]), b);
          }
        } else {
          BallotSkips(Tables(), r, now, Members(listing[..i]), b);
        }
      }
      assert listing[..|listing|] == listing;
      candidates := Sort(CandidateLeq, unsorted);
      CandidateOrderIsTotal();
      SortSorts(CandidateLeq, unsorted);
      SameMembers(unsorted, candidates);
      BallotOfAll(Tables(), r, now, Members(listing));
      SortedIsInOrder(candidates);
    }

    /** INSERT ... ON CONFLICT(bidder) DO UPDATE on sealed_bidder_discipline. */
    method UpsertDiscipline(bidder: Bidder, cooldownUntil: int)
      modifies this`discipline
      ensures discipline == old(discipline)[bidder := Discipline(StrikesOf(old(discipline), bidder) + 1,
        if bidder in old(discipline) then Max(old(discipline)[bidder].cooldownUntil, cooldownUntil) else cooldownUntil)]
    {
      if bidder in discipline {
        var record := discipline[bidder];
        discipline := discipline[bidder := Discipline(record.strikes + 1,
          if cooldownUntil > record.cooldownUntil then cooldownUntil else record.cooldownUntil)];
      } else {
        discipline := discipline[bidder := Discipline(1, cooldownUntil)];
      }
    }

    /** The cooldown each bidder with an unrevealed commit is to get; a bidder with several
        commits appears once. */
    method CollectCooldowns(r: RfqId, now: int) returns (cooldowns: map<Bidder, int>, unrevealed: nat)
      ensures cooldowns.Keys == NonRevealers(Tables(), r)
      ensures forall b :: b in cooldowns ==> cooldowns[b] == now + Cooldown(StrikesOf(discipline, b) + 1)
      ensures unrevealed == |set c | c in commits && commits[c].rfq == r && commits[c].status == Committed|
    {
      var listing := ListCommitted(r);
      unrevealed := |listing|;
      cooldowns := map[];
      for i := 0 to |listing|
        invariant cooldowns.Keys == set c | c in Members(listing[..i]) && c in commits :: commits[c].bidder
        invariant forall b :: b in cooldowns ==> cooldowns[b] == now + Cooldown(StrikesOf(discipline, b) + 1)
      {
        assert Members(listing[..i + 1]) == Members(listing[..i]) + {listing[i]};
        assert listing[i] in Members(listing);
        var bidder := commits[listing[i]].bidder;
        var until := now + Cooldown(if bidder in discipline then discipline[bidder].strikes + 1 else 1);
        if bidder !in cooldowns || until > cooldowns[bidder] {
          cooldowns := cooldowns[bidder := until];
        }
      }
      assert listing[..|listing|] == listing;
    }

    /** One strike for each bidder with an unrevealed commit, in whatever order they are visited. */
    method StrikeAll(cooldowns: map<Bidder, int>, now: int)
      requires forall b :: b in cooldowns ==> cooldowns[b] == now + Cooldown(StrikesOf(discipline, b) + 1)
      modifies this`discipline
      ensures discipline == Disciplined(old(discipline), cooldowns.Keys, now)
    {
      ghost var start := discipline;
      assert discipline == Disciplined(start, {}, now);
      var todo := cooldowns.Keys;
      while todo != {}
        invariant todo <= cooldowns.Keys
        invariant discipline == Disciplined(start, cooldowns.Keys - todo, now)
      {
        var bidder :| bidder in todo;
        DisciplineStep(start, cooldowns.Keys - todo, bidder, now);
        UpsertDiscipline(bidder, cooldowns[bidder]);
        assert cooldowns.Keys - (todo - {bidder}) == cooldowns.Keys - todo + {bidder};
        todo := todo - {bidder};
      }
      assert cooldowns.Keys - todo == cooldowns.Keys;
    }

    /** The ids of the eligible bids, in the same order. */
    method IdsOf(candidates: seq<Candidate>) returns (eligible: seq<BidId>)
      ensures |eligible| == |candidates| && forall j :: 0 <= j < |eligible| ==> eligible[j] == candidates[j].bid
      ensures Members(eligible) == set x | x in Members(candidates) :: x.bid
    {
      eligible := [];
      for i := 0 to |candidates|
        invariant |eligible| == i && forall j :: 0 <= j < i ==> eligible[j] == candidates[j].bid
      {
        eligible := eligible + [candidates[i].bid];
      }
      forall x | x in candidates ensures x.bid in eligible {
        var j :| 0 <= j < |candidates| && candidates[j] == x;
        assert eligible[j] == x.bid;
      }
    }

    /** FinalizeSealedBidding on a sealed RFQ: its transaction and its summary. */
    method FinalizeSealedBidding(r: RfqId, now: int) returns (summary: Summary)
      requires r in rfqs && RevealsAreUnique(Tables())
      modifies this
      ensures Tables() == FinalizeTx(old(Tables()), now, r)
      ensures summary.TooEarly? <==> old(!IsFinal(rfqs[r]) && rfqs[r].status == Open && now <= rfqs[r].revealDeadline)
      ensures summary.Summary? ==> summary.sealing == rfqs[r].sealing && summary.best == rfqs[r].best
      ensures summary.Summary? && old(MayFinalize(rfqs[r], now)) ==> FirstChoice(old(Tables()), r, now, summary.best)
      ensures summary.Summary? && old(MayFinalize(rfqs[r], now)) ==>
        && Members(summary.eligible) == (set x | x in Ballot(old(Tables()), r, now) :: x.bid)
        && (summary.eligible != [] ==> summary.best == Some(summary.eligible[0]))
        && summary.unrevealed
           == |set c | c in old(commits) && old(commits)[c].rfq == r && old(commits)[c].status == Committed|
    {
      var rfq := rfqs[r];
      if IsFinal(rfq) || rfq.status != Open { return Summary(rfq.sealing, rfq.best, [], 0); }
      if now <= rfq.revealDeadline { return TooEarly; }
      var candidates := EligibleCandidates(r, now);
      var eligible := IdsOf(candidates);
      var best := if candidates == [] then None else Some(candidates[0].bid);
      FirstWins(candidates, best);
      WinnerIsUnique(best, Winner(Ballot(Tables(), r, now)), Ballot(Tables(), r, now));
      WinnerIsFirstChoice(Tables(), r, now, best);
      var cooldowns, unrevealed := CollectCooldowns(r, now);
      StrikeAll(cooldowns, now);
      ExpireCommittedCommits(r);
      var sealing := if best.Some? then Finalized else NoValidReveals;
      rfqs := rfqs[r := rfq.(sealing := sealing, best := best, finalizedAt := now)];
      summary := Summary(rfqs[r].sealing, best, eligible, unrevealed);
    }

    method ExpireCommittedCommits(r: RfqId)
      modifies this`commits
      ensures Tables() == ExpireCommitted(old(Tables()), r)
    {
      commits := ExpireCommitted(Tables(), r).commits;
    }

    /** CommitBid's transaction: the cooldown test, superseding, and the insert under its unique keys. */
    method CommitBid(now: int, at: int, r: RfqId, bidder: Bidder, commitment: string, nonce: string)
      returns (stored: bool)
      requires r in rfqs
      modifies this
      ensures Tables() == CommitTx(old(Tables()), now, at, r, bidder, commitment, nonce)
      ensures stored <==> nextCommit != old(nextCommit)
    {
      if rfqs[r].sealed && InCooldown(Tables(), bidder, now) { return false; }
      var before := commits;
      commits := SupersedeCommitted(Tables(), r, bidder).commits;
      assert Duplicate(Tables(), r, bidder, commitment, nonce)
             <==> Duplicate(old(Tables()), r, bidder, commitment, nonce) by {
        SupersedingKeepsKeys(old(Tables()), r, bidder, commitment, nonce);
      }
      if Duplicate(Tables(), r, bidder, commitment, nonce) {
        commits := before;
        return false;
      }
      commits := commits[nextCommit := Commit(r, bidder, commitment, nonce, Committed, None, at)];
      nextCommit := nextCommit + 1;
      stored := true;
    }

    /** RevealBid's transaction: the insert is rolled back unless the commit is still "committed". */
    method RevealBid(r: RfqId, c: CommitId, offer: Offer) returns (revealed: Option<BidId>)
      modifies this
      ensures Tables() == RevealTx(old(Tables()), r, c, offer)
      ensures revealed.Some? <==> old(c in commits && commits[c].status == Committed)
      ensures revealed.Some? ==> Reveals(Tables(), c, revealed.value)
    {
      var bidsBefore := bids;
      bids := bids[nextBid := Bid(r, offer, Pending)];
      if c !in commits || commits[c].status != Committed {
        bids := bidsBefore;
        return None;
      }
      commits := commits[c := commits[c].(status := Revealed, bid := Some(nextBid))];
      revealed := Some(nextBid);
      nextBid := nextBid + 1;
    }

    /** AcceptBid's transaction: five statements, none of which runs if the first matches no row. */
    method AcceptBid(r: RfqId, b: BidId) returns (accepted: bool)
      requires r in rfqs
      modifies this
      ensures Tables() == AcceptTx(old(Tables()), r, b)
      ensures accepted <==> old(b in bids && bids[b].status == Pending)
    {
      if b !in bids || bids[b].status != Pending { return false; }
      bids := bids[b := bids[b].(status := Accepted)];
      rfqs := rfqs[r := rfqs[r].(status := Closed)];
      bids := RejectPending(Tables(), r, Some(b)).bids;
      commits := MarkWinningCommit(Tables(), b).commits;
      commits := RejectUnaccepted(Tables(), r, Some(b)).commits;
      accepted := true;
    }
  }

  lemma SupersedingKeepsKeys(db: Db, r: RfqId, bidder: Bidder, commitment: string, nonce: string)
    ensures Duplicate(SupersedeCommitted(db, r, bidder), r, bidder, commitment, nonce)
      <==> Duplicate(db, r, bidder, commitment, nonce)
  {
    var d := SupersedeCommitted(db, r, bidder);
    if c :| c in db.commits && db.commits[c].rfq == r && db.commits[c].bidder == bidder
            && (db.commits[c].nonce == nonce || db.commits[c].commitment == commitment) {
      assert c in d.commits && d.commits[c].nonce == db.commits[c].nonce;
    }
  }
}
